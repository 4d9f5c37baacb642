/** Slots and bits of a file table, as values. */
module FileSlots {
  import opened Wrappers
  import opened MultisetSums

  const BITMAP_UNIT: nat := 64
  const FD_MAX: nat := 8192
  const INLINE_SIZE: nat := 64   // FDTBL_INLINE_SIZE

  type Files = seq<Option<nat>>

  function BitmapSize(count: nat): nat {
    (count + BITMAP_UNIT - 1) / BITMAP_UNIT
  }

  /** A bit is set exactly for each slot in use; bits behind the last slot are clear. */
  ghost predicate BitsOk(bits: seq<bool>, files: Files) {
    |bits| == BITMAP_UNIT * BitmapSize(|files|)
      && forall i :: 0 <= i < |bits| ==> (bits[i] <==> i < |files| && files[i].Some?)
  }

  /** All slots from `end` on are free, and the one before is not. */
  ghost predicate EndOk(files: Files, end: nat) {
    && end <= |files| && (forall i :: end <= i < |files| ==> files[i].None?)
    && (end > 0 ==> files[end - 1].Some?)
  }

  /** Everything below `next` is in use. */
  ghost predicate Packed(files: Files, next: nat) {
    next <= |files| && forall i :: 0 <= i < next ==> files[i].Some?
  }

  /** `fd` is the smallest free descriptor, counting those the table could grow to. */
  ghost predicate LeastFree(files: Files, fd: nat) {
    Packed(files, fd) && (fd < |files| ==> files[fd].None?)
  }

  /** Slots, bits, count, end and hint agree. */
  ghost predicate TableOk(files: Files, bits: seq<bool>, count: nat, end: nat, next: nat) {
    && INLINE_SIZE <= |files| <= FD_MAX + 1 && BitsOk(bits, files)
    && count == Used(files) && EndOk(files, end) && Packed(files, next)
  }

  // ---------------------------------------------------------------- counting

  function Used(files: Files): (n: nat)
    ensures n <= |files|
  {
    if files == [] then 0 else Used(files[1..]) + if files[0].Some? then 1 else 0
  }

  lemma {:induction false} UsedUpdated(files: Files, i: nat, x: Option<nat>)
    requires i < |files|
    ensures Used(files[i := x]) + (if files[i].Some? then 1 else 0) == Used(files) + (if x.Some? then 1 else 0)
  {
    var now := files[i := x];
    if i == 0 {
      assert now[1..] == files[1..];
    } else {
      assert now[1..] == files[1..][i - 1 := x];
      UsedUpdated(files[1..], i - 1, x);
    }
  }

  /** The table is full exactly when every slot is in use. */
  lemma {:induction false} FullIsPacked(files: Files)
    ensures Used(files) == |files| <==> Packed(files, |files|)
  {
    if files != [] {
      FullIsPacked(files[1..]);
      assert forall i :: 0 < i < |files| ==> files[i] == files[1..][i - 1];
    }
  }

  function Free(n: nat): Files {
    seq(n, _ => None)
  }

  lemma {:induction false} UsedGrown(files: Files, n: nat)
    ensures Used(files + Free(n)) == Used(files)
    decreases |files| + n
  {
    var all := files + Free(n);
    if files != [] {
      assert all[1..] == files[1..] + Free(n);
      UsedGrown(files[1..], n);
    } else if n > 0 {
      assert all[1..] == [] + Free(n - 1);
      UsedGrown([], n - 1);
    }
  }

  /** After a slot is emptied. */
  lemma Emptied(files: Files, bits: seq<bool>, count: nat, end: nat, next: nat, fd: nat)
    requires TableOk(files, bits, count, end, next) && fd < end && files[fd].Some?
    ensures var files', bits' := files[fd := None], bits[fd := false];
      && BitsOk(bits', files') && count > 0 && count - 1 == Used(files')
      && (forall i :: end <= i < |files'| ==> files'[i].None?)
      && (fd + 1 < end ==> EndOk(files', end)) && Packed(files', if next > fd then fd else next)
  {
    UsedUpdated(files, fd, None);
  }

  /** After a slot is filled. */
  lemma Occupied(files: Files, bits: seq<bool>, count: nat, end: nat, next: nat, fd: nat, file: nat)
    requires TableOk(files, bits, count, end, next) && fd < |files| && files[fd].None?
    ensures TableOk(files[fd := Some(file)], bits[fd := true], count + 1, if end <= fd then fd + 1 else end, next)
  {
    UsedUpdated(files, fd, Some(file));
  }

  lemma GrownBits(bits: seq<bool>, files: Files, end: nat, capacity: nat)
    requires BitsOk(bits, files) && end <= |files| <= capacity && forall i :: end <= i < |files| ==> files[i].None?
    ensures BitmapSize(end) <= BitmapSize(|files|) <= BitmapSize(capacity)
    ensures BitsOk(bits[..BITMAP_UNIT * BitmapSize(end)]
                   + seq(BITMAP_UNIT * (BitmapSize(capacity) - BitmapSize(end)), _ => false),
                   files + Free(capacity - |files|))
  {}

  /** After the first `end` slots are copied to larger arrays. */
  lemma Grown(files: Files, bits: seq<bool>, count: nat, end: nat, next: nat, capacity: nat)
    requires TableOk(files, bits, count, end, next) && |files| <= capacity <= FD_MAX + 1
    ensures files[..end] + Free(capacity - end) == files + Free(capacity - |files|)
    ensures BitmapSize(end) <= BitmapSize(|files|) <= BitmapSize(capacity)
    ensures TableOk(files + Free(capacity - |files|),
                    bits[..BITMAP_UNIT * BitmapSize(end)]
                      + seq(BITMAP_UNIT * (BitmapSize(capacity) - BitmapSize(end)), _ => false), count, end, next)
  {
    GrownBits(bits, files, end, capacity);
    UsedGrown(files, capacity - |files|);
  }

  // ---------------------------------------------------------------- references

  ghost function One(x: Option<nat>): multiset<nat> {
    if x.Some? then multiset{x.value} else multiset{}
  }

  ghost function Each(files: Files): (r: seq<multiset<nat>>)
    ensures |r| == |files| && forall i :: 0 <= i < |files| ==> r[i] == One(files[i])
  {
    seq(|files|, i requires 0 <= i < |files| => One(files[i]))
  }

  /** The references that the table holds. */
  ghost function Held(files: Files): multiset<nat> {
    Sum(Each(files))
  }

  lemma HeldUpdated(files: Files, i: nat, x: Option<nat>)
    requires i < |files|
    ensures Held(files[i := x]) + One(files[i]) == Held(files) + One(x)
  {
    assert Each(files[i := x]) == Each(files)[i := One(x)];
    SumReplaced(Each(files), i, One(x));
  }

  lemma HeldUpTo(files: Files, i: nat)
    requires i < |files|
    ensures Held(files[..i + 1]) == Held(files[..i]) + One(files[i])
  {
    var m := Each(files[..i + 1]);
    assert m[..i] + m[i + 1..] == Each(files[..i]);
    SumWithout(m, i);
  }

  lemma HeldToEnd(files: Files, end: nat)
    requires EndOk(files, end)
    ensures Held(files[..end]) == Held(files)
  {
    HeldGrown(files[..end], |files| - end);
    assert files == files[..end] + Free(|files| - end);
  }

  /** What is in slot `fd`, whatever the size of the table. */
  function Slot(files: Files, fd: nat): Option<nat> {
    if fd < |files| then files[fd] else None
  }

  /** The first `n` slots hold what those of `from` do; the others are free. */
  ghost predicate Copied(files: Files, from: Files, n: nat) {
    forall i: nat :: Slot(files, i) == if i < n then Slot(from, i) else None
  }

  /** The slots with `file` at `fd`, the table grown to hold it if necessary. */
  ghost predicate Opened(files: Files, files': Files, fd: nat, file: nat) {
    && fd < |files'| && |files| <= |files'| && (fd < |files| ==> files[fd].None? && |files'| == |files|)
    && files' == (files + Free(|files'| - |files|))[fd := Some(file)]
  }

  lemma HeldOpened(files: Files, files': Files, fd: nat, file: nat)
    requires Opened(files, files', fd, file)
    ensures Held(files') == Held(files) + multiset{file}
  {
    var n := |files'| - |files|;
    HeldGrown(files, n);
    HeldUpdated(files + Free(n), fd, Some(file));
    assert Held(files') + multiset{} == Held(files');
  }

  lemma HeldRemoved(files: Files, fd: nat)
    requires fd < |files|
    ensures Held(files[fd := None]) + One(files[fd]) == Held(files)
  {
    HeldUpdated(files, fd, None);
    assert Held(files) + multiset{} == Held(files);
  }

  lemma CopiedMore(files: Files, files': Files, from: Files, n: nat)
    requires Copied(files, from, n) && n < |from|
    requires if from[n].Some? then Opened(files, files', n, from[n].value) else files' == files
    ensures Copied(files', from, n + 1)
  {
    forall i: nat
      ensures Slot(files', i) == if i < n + 1 then Slot(from, i) else None
    {
      assert Slot(files, i) == if i < n then Slot(from, i) else None;
    }
  }

  /** A full copy agrees in every respect. */
  lemma CopiedAll(files: Files, from: Files, end: nat, next: nat)
    requires Copied(files, from, end) && EndOk(from, end) && Packed(from, next)
    ensures Packed(files, next) && Copied(files, from, |from|)
  {
    forall i: nat
      ensures Slot(files, i) == Slot(from, i)
    {
      assert Slot(files, i) == if i < end then Slot(from, i) else None;
    }
    if next > 0 {
      assert Slot(files, next - 1).Some?;
    }
    forall i | 0 <= i < next
      ensures files[i].Some?
    {
      assert Slot(files, i) == Slot(from, i);
    }
  }

  lemma {:induction false} HeldFree(n: nat)
    ensures Held(Free(n)) == multiset{}
  {
    if n > 0 {
      HeldFree(n - 1);
      assert Each(Free(n))[1..] == Each(Free(n - 1));
    }
  }

  lemma {:induction false} HeldGrown(files: Files, n: nat)
    ensures Held(files + Free(n)) == Held(files)
    decreases |files|
  {
    var all := files + Free(n);
    if files == [] {
      HeldFree(n);
      assert all == Free(n);
    } else {
      HeldGrown(files[1..], n);
      assert all[1..] == files[1..] + Free(n);
      assert Each(all)[1..] == Each(all[1..]) && Each(files)[1..] == Each(files[1..]);
    }
  }
}

/**
 The file descriptor table of kernel/src/task/filetable.c: slots, a bitmap, a count, the end of
 the used slots and a hint for the next free one, updated in place.
 */
module FileTables {
  import opened Wrappers
  import opened MultisetSums
  import opened FileSlots

  datatype Error = Ok | Einval | Enomem | Eexist

  /** The references held on open files, by anybody. */
  class References {
    var refs: multiset<nat>
  }

  class FileTable {
    var files: Files
    var bitmap: seq<bool>
    var count: nat
    var endFd: nat
    var nextFd: nat
    const references: References
    ghost var refusals: nat  // how often memory was refused

    ghost predicate Valid()
      reads this
    {
      TableOk(files, bitmap, count, endFd, nextFd)
    }

    /** `filetable_init`. */
    constructor (references: References)
      ensures Valid() && this.references == references && files == Free(INLINE_SIZE) && refusals == 0
    {
      this.references := references;
      files, bitmap := Free(INLINE_SIZE), seq(BITMAP_UNIT, _ => false);
      count, endFd, nextFd, refusals := 0, 0, 0, 0;
      UsedGrown([], INLINE_SIZE);
      assert [] + Free(INLINE_SIZE) == Free(INLINE_SIZE);
    }

    // -------------------------------------------------------------- searching

    /** `find_empty_bit`: the first clear bit in the words `begin..end`, if it belongs to a slot. */
    method FindEmptyBit(begin: nat, end: nat) returns (fd: Option<nat>)
      requires BitsOk(bitmap, files) && begin <= end <= BitmapSize(|files|)
      ensures fd.Some? ==> BITMAP_UNIT * begin <= fd.value < |files| && files[fd.value].None?
      ensures fd.Some? ==> forall i :: BITMAP_UNIT * begin <= i < fd.value ==> files[i].Some?
      ensures fd.None? ==> forall i :: BITMAP_UNIT * begin <= i < BITMAP_UNIT * end && i < |files| ==> files[i].Some?
    {
      var idx := begin;
      while idx < end
        invariant begin <= idx <= end
        invariant forall i :: BITMAP_UNIT * begin <= i < BITMAP_UNIT * idx ==> bitmap[i]
        decreases end - idx
      {
        var bit := FirstClear(BITMAP_UNIT * idx);
        if bit < BITMAP_UNIT {
          var found := BITMAP_UNIT * idx + bit;
          return if found < |files| then Some(found) else None;
        }
        idx := idx + 1;
      }
      return None;
    }

    /** The first clear bit of the word at `base`; `BITMAP_UNIT` if all are set. */
    method FirstClear(base: nat) returns (bit: nat)
      requires base + BITMAP_UNIT <= |bitmap|
      ensures bit <= BITMAP_UNIT && (forall i :: base <= i < base + bit ==> bitmap[i])
      ensures bit < BITMAP_UNIT ==> !bitmap[base + bit]
    {
      bit := 0;
      while bit < BITMAP_UNIT && bitmap[base + bit]
        invariant bit <= BITMAP_UNIT && forall i :: base <= i < base + bit ==> bitmap[i]
      {
        bit := bit + 1;
      }
    }

    /** `find_empty_slot`: with a free slot left, the smallest free one, found at once. */
    method FindEmptySlot() returns (fd: Option<nat>)
      requires Valid()
      ensures count < |files| ==> fd.Some? && fd.value < |files| && LeastFree(files, fd.value)
      ensures count == |files| ==> fd.None?
    {
      var hint := nextFd / BITMAP_UNIT;
      FullIsPacked(files);
      fd := FindEmptyBit(hint, BitmapSize(|files|));
      if fd.None? && hint > 0 {
        fd := FindEmptyBit(0, hint);
      }
    }

    /** `update_end_fd`: the end of the used slots, looking down from the old end. */
    method LastUsedEnd() returns (end: nat)
      requires BitsOk(bitmap, files) && endFd <= |files| && forall i :: endFd <= i < |files| ==> files[i].None?
      ensures EndOk(files, end)
    {
      if endFd == 0 {
        return 0;
      }
      var idx: nat := (endFd - 1) / BITMAP_UNIT + 1;
      while idx > 0
        invariant idx <= BitmapSize(|files|)
        invariant forall i :: BITMAP_UNIT * idx <= i < |files| ==> files[i].None?
      {
        idx := idx - 1;
        var bit: nat := BITMAP_UNIT;
        while bit > 0
          invariant bit <= BITMAP_UNIT
          invariant forall i :: BITMAP_UNIT * idx + bit <= i < |files| ==> files[i].None?
        {
          bit := bit - 1;
          if bitmap[BITMAP_UNIT * idx + bit] {
            return BITMAP_UNIT * idx + bit + 1;
          }
        }
      }
      return 0;
    }

    // -------------------------------------------------------------- changing

    /** `realloc`: room for at least `capacity` slots, or nothing changes. */
    method Realloc(capacity: nat) returns (ok: bool)
      requires Valid() && capacity > |files|
      modifies this
      ensures Valid() && count == old(count) && endFd == old(endFd) && nextFd == old(nextFd)
      ensures ok ==>
        capacity <= |files| && files == old(files) + Free(|files| - |old(files)|) && refusals == old(refusals)
      ensures !ok ==> files == old(files) && (capacity > FD_MAX + 1 || refusals == old(refusals) + 1)
      ensures capacity > FD_MAX + 1 ==> !ok && refusals == old(refusals)
    {
      if capacity > FD_MAX + 1 {
        return false;
      }
      var granted := KzallocSpan(capacity);
      if granted.None? {
        refusals := refusals + 1;
        return false;
      }
      var newCapacity := if granted.value > FD_MAX + 1 then FD_MAX + 1 else granted.value;
      var words := BitmapSize(endFd);
      Grown(files, bitmap, count, endFd, nextFd, newCapacity);
      bitmap := bitmap[..BITMAP_UNIT * words] + seq(BITMAP_UNIT * (BitmapSize(newCapacity) - words), _ => false);
      files := files[..endFd] + Free(newCapacity - endFd);
      return true;
    }

    /** `put_file` into a free slot. */
    method PutFile(idx: nat, file: nat)
      requires Valid() && idx < |files| && files[idx].None?
      modifies this`files, this`bitmap, this`count, this`endFd, references
      ensures Valid() && files == old(files)[idx := Some(file)]
      ensures references.refs == old(references.refs) + multiset{file}
    {
      references.refs := references.refs + multiset{file};
      Occupied(files, bitmap, count, endFd, nextFd, idx, file);
      files := files[idx := Some(file)];
      bitmap := bitmap[idx := true];
      if endFd <= idx {
        endFd := idx + 1;
      }
      count := count + 1;
    }

    method UpdateNextFd(inserted: nat)
      requires inserted < |files|
      modifies this`nextFd
      ensures nextFd == if inserted + 1 < |files| then inserted + 1 else 0
    {
      nextFd := inserted + 1;
      if nextFd >= |files| {
        nextFd := 0;
      }
    }

    /** `filetable_insert`: the smallest free descriptor. */
    method Insert(file: nat) returns (fd: Option<nat>)
      requires Valid()
      modifies this, references
      ensures Valid()
      ensures fd.Some? ==>
        fd.value <= FD_MAX && LeastFree(old(files), fd.value) && Opened(old(files), files, fd.value, file)
      ensures fd.Some? ==> references.refs == old(references.refs) + multiset{file}
      ensures fd.None? ==> files == old(files) && references.refs == old(references.refs)
      ensures fd.None? <==>
        Packed(old(files), |old(files)|) && (|old(files)| == FD_MAX + 1 || refusals != old(refusals))
    {
      FullIsPacked(files);
      var idx;
      if count == |files| {
        assert files[|files| - 1].Some? && endFd == |files|;
        if endFd > FD_MAX {
          return None;
        }
        idx := endFd;
        var ok := Realloc(endFd + 1);
        if !ok {
          return None;
        }
      } else {
        var slot := FindEmptySlot();
        idx := slot.value;
      }
      PutFile(idx, file);
      UpdateNextFd(idx);
      return Some(idx);
    }

    /** `filetable_insert_at`: a chosen descriptor. */
    method InsertAt(fd: int, file: nat) returns (result: Error)
      requires Valid()
      modifies this, references
      ensures Valid()
      ensures result == Einval <==> fd < 0 || fd > FD_MAX
      ensures result == Eexist <==> 0 <= fd < |old(files)| && old(files)[fd].Some?
      ensures result == Enomem <==> refusals != old(refusals)
      ensures result == Enomem ==> |old(files)| <= fd <= FD_MAX
      ensures result == Ok ==>
        Opened(old(files), files, fd, file) && references.refs == old(references.refs) + multiset{file}
      ensures result != Ok ==> files == old(files) && references.refs == old(references.refs)
    {
      if fd < 0 || fd > FD_MAX {
        return Einval;
      }
      if fd >= |files| {
        var ok := Realloc(fd + 1);
        if !ok {
          return Enomem;
        }
      }
      if files[fd].Some? {
        return Eexist;
      }
      PutFile(fd, file);
      if nextFd == fd {
        UpdateNextFd(fd);
      }
      return Ok;
    }

    /** `filetable_get`, which takes a reference for the caller. */
    method Get(fd: int) returns (file: Option<nat>)
      requires Valid()
      modifies references
      ensures file == if 0 <= fd < |files| then files[fd] else None
      ensures references.refs == old(references.refs) + One(file)
    {
      if fd < 0 || fd >= endFd {
        return None;
      }
      file := files[fd];
      if file.Some? {
        references.refs := references.refs + multiset{file.value};
      }
    }

    /** `filetable_remove`. */
    method Remove(fd: int) returns (ok: bool)
      requires Valid()
      modifies this`files, this`bitmap, this`count, this`endFd, this`nextFd, references
      ensures Valid() && (ok <==> 0 <= fd < |old(files)| && old(files)[fd].Some?)
      ensures files == if ok then old(files)[fd := None] else old(files)
      ensures references.refs == old(references.refs) - if ok then One(old(files)[fd]) else multiset{}
    {
      if fd < 0 || fd >= endFd || files[fd].None? {
        return false;
      }
      references.refs := references.refs - multiset{files[fd].value};
      Empty(fd);
      return true;
    }

    method Empty(fd: nat)
      requires Valid() && fd < endFd && files[fd].Some?
      modifies this`files, this`bitmap, this`count, this`endFd, this`nextFd
      ensures Valid() && files == old(files)[fd := None]
    {
      Emptied(files, bitmap, count, endFd, nextFd, fd);
      files := files[fd := None];
      bitmap := bitmap[fd := false];
      count := count - 1;
      if fd + 1 == endFd {
        endFd := LastUsedEnd();
      }
      if nextFd > fd {
        nextFd := fd;
      }
    }

    /** `filetable_destroy`: every reference is dropped. */
    method Destroy()
      requires Valid()
      modifies references
      ensures references.refs == old(references.refs) - Held(files)
    {
      for idx := 0 to endFd
        invariant references.refs == old(references.refs) - Held(files[..idx])
      {
        DropSlot(idx, old(references.refs));
      }
      HeldToEnd(files, endFd);
    }

    /** The body of the loop of `filetable_destroy`. */
    method DropSlot(idx: nat, ghost refs: Ids)
      requires idx < |files| && references.refs == refs - Held(files[..idx])
      modifies references
      ensures references.refs == refs - Held(files[..idx + 1])
    {
      HeldUpTo(files, idx);
      SubtractBoth(refs, Held(files[..idx]), One(files[idx]));
      if files[idx].Some? {
        references.refs := references.refs - multiset{files[idx].value};
      }
    }

    method Init()
      modifies this
      ensures Valid() && files == Free(INLINE_SIZE) && nextFd == 0 && refusals == old(refusals)
    {
      files, bitmap := Free(INLINE_SIZE), seq(BITMAP_UNIT, _ => false);
      count, endFd, nextFd := 0, 0, 0;
      UsedGrown([], INLINE_SIZE);
      assert [] + Free(INLINE_SIZE) == Free(INLINE_SIZE);
    }

    /** The body of the loop of `filetable_clone`. */
    method CopySlot(from: Files, idx: nat) returns (result: Error)
      requires Valid() && idx < |from| <= FD_MAX + 1 && Copied(files, from, idx) && Held(files) == Held(from[..idx])
      modifies this, references
      ensures Valid() && (result == Ok || result == Enomem) && (result == Enomem <==> refusals != old(refusals))
      ensures result == Ok ==> Copied(files, from, idx + 1) && Held(files) == Held(from[..idx + 1])
      ensures result == Ok ==> references.refs == old(references.refs) + One(from[idx])
      ensures result != Ok ==> files == old(files) && references.refs == old(references.refs)
    {
      HeldUpTo(from, idx);
      result := Ok;
      if from[idx].Some? {
        assert Slot(files, idx).None?;
        result := InsertAt(idx, from[idx].value);
        if result != Ok {
          return;
        }
        HeldOpened(old(files), files, idx, from[idx].value);
      }
      CopiedMore(old(files), files, from, idx);
    }

    /** The same, with the references counted from `refs` on. */
    method CopyCounted(from: Files, idx: nat, ghost refs: Ids) returns (result: Error)
      requires Valid() && idx < |from| <= FD_MAX + 1 && Copied(files, from, idx) && Held(files) == Held(from[..idx])
      requires references.refs == refs + Held(files)
      modifies this, references
      ensures Valid() && (result == Ok || result == Enomem) && (result == Enomem <==> refusals != old(refusals))
      ensures result == Ok ==> Copied(files, from, idx + 1) && Held(files) == Held(from[..idx + 1])
      ensures references.refs == refs + Held(files)
    {
      HeldUpTo(from, idx);
      AddAssoc(refs, Held(from[..idx]), One(from[idx]));
      result := CopySlot(from, idx);
    }

    /** The loop of `filetable_clone`, up to where it would undo a failure. */
    method CopySlots(from: Files, end: nat) returns (result: Error)
      requires Valid() && files == Free(INLINE_SIZE) && end <= |from| <= FD_MAX + 1
      modifies this, references
      ensures Valid() && (result == Ok || result == Enomem) && (result == Enomem <==> refusals != old(refusals))
      ensures references.refs == old(references.refs) + Held(files)
      ensures result == Ok ==> Copied(files, from, end) && Held(files) == Held(from[..end])
    {
      HeldFree(INLINE_SIZE);
      ghost var refs := references.refs;
      for idx := 0 to end
        invariant Valid() && refusals == old(refusals) && references.refs == refs + Held(files)
        invariant Copied(files, from, idx) && Held(files) == Held(from[..idx])
      {
        result := CopyCounted(from, idx, refs);
        if result != Ok {
          return;
        }
      }
      result := Ok;
    }

    /** `filetable_clone` into this table, whatever it held before. */
    method CloneFrom(src: FileTable) returns (result: Error)
      requires src != this && src.references == references && src.Valid()
      modifies this, references
      ensures Valid() && (result == Ok || result == Enomem)
      ensures result == Ok ==> Copied(files, src.files, |src.files|) && nextFd == src.nextFd
      ensures result == Ok ==> references.refs == old(references.refs) + Held(src.files)
      ensures result != Ok ==> files == Free(INLINE_SIZE) && references.refs == old(references.refs)
      ensures result == Enomem <==> refusals != old(refusals)
    {
      Init();
      result := CopySlots(src.files, src.endFd);
      if result != Ok {
        AddThenSubtract(old(references.refs), Held(files));
        Destroy();
        Init();
        return;
      }
      HeldToEnd(src.files, src.endFd);
      CopiedAll(files, src.files, src.endFd, src.nextFd);
      nextFd := src.nextFd;
    }
  }

  /** `kzalloc_span`: at least what was asked for, or nothing. */
  method KzallocSpan(capacity: nat) returns (granted: Option<nat>)
    ensures granted.Some? ==> granted.value >= capacity
  {
    if * {
      return None;
    }
    var size: nat :| size >= capacity;
    return Some(size);
  }
}
