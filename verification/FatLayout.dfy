/** Where the bits of an entry are in the table on disk. */
module FatLayout {
  import opened Powers
  import opened FatEncoding

  /** Bit `j` of a number. */
  predicate Bit(v: nat, j: nat) {
    if j == 0 then v % 2 == 1 else Bit(v / 2, j - 1)
  }

  function BitsOf(bits: Bits): nat {
    match bits
    case Fat12 => 12
    case Fat16 => 16
    case Fat32 => 32
  }

  /** Bit `i` of the table, counting from the lowest bit of its first byte. */
  predicate TableBit(b: Bytes, i: nat) {
    i / 8 < |b| && Bit(b[i / 8], i % 8)
  }

  /** Entry `c` is the number whose bits follow those of the entries before it. */
  ghost predicate Stores(bits: Bits, b: Bytes, c: nat, v: nat) {
    && v < Pow2(BitsOf(bits))
    && forall j :: 0 <= j < BitsOf(bits) ==> (Bit(v, j) <==> TableBit(b, BitsOf(bits) * c + j))
  }

  // ---------------------------------------------------------------- bits of numbers

  lemma {:induction false} BitOfSum(x: nat, y: nat, k: nat, j: nat)
    requires x < Pow2(k)
    ensures Bit(x + Pow2(k) * y, j) == if j < k then Bit(x, j) else Bit(y, j - k)
    decreases k
  {
    if k > 0 {
      var m := Pow2(k - 1) * y;
      assert Pow2(k) * y == 2 * m;
      Halves(x, m);
      if j > 0 {
        BitOfSum(x / 2, y, k - 1, j - 1);
      }
    }
  }

  lemma Halves(x: nat, m: nat)
    ensures (x + 2 * m) % 2 == x % 2 && (x + 2 * m) / 2 == x / 2 + m
  {}

  /** Numbers with the same bits are the same. */
  lemma {:induction false} BitsDetermine(v: nat, w: nat, k: nat)
    requires v < Pow2(k) && w < Pow2(k) && forall j :: 0 <= j < k ==> (Bit(v, j) <==> Bit(w, j))
    ensures v == w
    decreases k
  {
    if k > 0 {
      assert Bit(v, 0) <==> Bit(w, 0);
      forall j | 0 <= j < k - 1
        ensures Bit(v / 2, j) <==> Bit(w / 2, j)
      {
        assert Bit(v, j + 1) <==> Bit(w, j + 1);
      }
      BitsDetermine(v / 2, w / 2, k - 1);
    }
  }

  /** So the table determines its entries. */
  lemma StoredUnique(bits: Bits, b: Bytes, c: nat, v: nat, w: nat)
    requires Stores(bits, b, c, v) && Stores(bits, b, c, w)
    ensures v == w
  {
    BitsDetermine(v, w, BitsOf(bits));
  }

  // ---------------------------------------------------------------- the three encodings

  lemma Powers2()
    ensures Pow2(4) == 16 && Pow2(8) == 0x100 && Pow2(12) == 0x1000 && Pow2(16) == 0x1_0000 && Pow2(24) == 0x100_0000
    ensures Pow2(32) == 0x1_0000_0000
  {
    assert Pow2(4) == 16;
    assert Pow2(8) == 0x100;
    assert Pow2(12) == 0x1000;
    assert Pow2(16) == 0x1_0000;
    assert Pow2(20) == 0x10_0000;
    assert Pow2(24) == 0x100_0000;
    assert Pow2(28) == 0x1000_0000;
  }

  /** Two bytes, the low one first. */
  lemma BitOfPair(x: nat, y: nat, j: nat)
    requires x < 256
    ensures Bit(x + y * 0x100, j) == if j < 8 then Bit(x, j) else Bit(y, j - 8)
  {
    Powers2();
    BitOfSum(x, y, 8, j);
  }

  lemma BitOfNibbles(x: nat, j: nat)
    ensures Bit(x, j) == if j < 4 then Bit(x % 16, j) else Bit(x / 16, j - 4)
  {
    Powers2();
    BitOfSum(x % 16, x / 16, 4, j);
  }

  lemma Bits16(b: Bytes, c: nat, j: nat)
    requires HasEntry(Fat16, b, c) && j < 16
    ensures Bit(Raw(Fat16, b, c), j) == TableBit(b, 16 * c + j)
  {
    BitOfPair(b[2 * c], b[2 * c + 1], j);
    assert (16 * c + j) / 8 == 2 * c + j / 8 && (16 * c + j) % 8 == j % 8;
  }

  lemma Bits32(b: Bytes, c: nat, j: nat)
    requires HasEntry(Fat32, b, c) && j < 32
    ensures Bit(Raw(Fat32, b, c), j) == TableBit(b, 32 * c + j)
  {
    var p := 4 * c;
    var x: nat, y: nat, z: nat, w: nat := b[p], b[p + 1], b[p + 2], b[p + 3];
    assert Raw(Fat32, b, c) == x + (y + (z + w * 0x100) * 0x100) * 0x100;
    BitOfPair(x, y + (z + w * 0x100) * 0x100, j);
    if j >= 8 {
      BitOfPair(y, z + w * 0x100, j - 8);
      if j >= 16 {
        BitOfPair(z, w, j - 16);
      }
    }
    assert (32 * c + j) / 8 == 4 * c + j / 8 && (32 * c + j) % 8 == j % 8;
  }

  lemma Bits12Even(b: Bytes, c: nat, j: nat)
    requires HasEntry(Fat12, b, c) && j < 12 && c % 2 == 0
    ensures Bit(Raw(Fat12, b, c), j) == TableBit(b, 12 * c + j)
  {
    var k := c / 2;
    assert EntryPos(Fat12, c) == 3 * k && (12 * c + j) / 8 == 3 * k + j / 8 && (12 * c + j) % 8 == j % 8;
    var y: nat := b[3 * k + 1];
    BitOfPair(b[3 * k], y % 16, j);
    if j >= 8 {
      BitOfNibbles(y, j - 8);
    }
  }

  lemma Bits12Odd(b: Bytes, c: nat, j: nat)
    requires HasEntry(Fat12, b, c) && j < 12 && c % 2 == 1
    ensures Bit(Raw(Fat12, b, c), j) == TableBit(b, 12 * c + j)
  {
    var k := c / 2;
    assert c == 2 * k + 1;
    assert EntryPos(Fat12, c) == 3 * k + 1;
    assert 12 * c + j == 8 * (3 * k + 1) + (4 + j);
    assert (12 * c + j) / 8 == 3 * k + 1 + (4 + j) / 8 && (12 * c + j) % 8 == (4 + j) % 8;
    var x: nat, y: nat := b[3 * k + 1], b[3 * k + 2];
    Powers2();
    BitOfSum(x / 16, y, 4, j);
    if j < 4 {
      BitOfNibbles(x, j + 4);
    }
  }

  /** The entry that is read is the one whose bits are stored, in all three encodings. */
  lemma RawStored(bits: Bits, b: Bytes, c: nat)
    requires HasEntry(bits, b, c)
    ensures Stores(bits, b, c, Raw(bits, b, c))
  {
    RawBelow(bits, b, c);
    forall j | 0 <= j < BitsOf(bits)
      ensures Bit(Raw(bits, b, c), j) <==> TableBit(b, BitsOf(bits) * c + j)
    {
      BitStored(bits, b, c, j);
    }
  }

  lemma BitStored(bits: Bits, b: Bytes, c: nat, j: nat)
    requires HasEntry(bits, b, c) && j < BitsOf(bits)
    ensures Bit(Raw(bits, b, c), j) <==> TableBit(b, BitsOf(bits) * c + j)
  {
    match bits
    case Fat12 =>
      if c % 2 == 0 {
        Bits12Even(b, c, j);
      } else {
        Bits12Odd(b, c, j);
      }
    case Fat16 => Bits16(b, c, j);
    case Fat32 => Bits32(b, c, j);
  }

  lemma RawBelow(bits: Bits, b: Bytes, c: nat)
    requires HasEntry(bits, b, c)
    ensures Raw(bits, b, c) < Pow2(BitsOf(bits))
  {
    Powers2();
  }

  /** So reading is exact: the entry has a value if and only if reading gives it. */
  lemma RawIff(bits: Bits, b: Bytes, c: nat, v: nat)
    requires HasEntry(bits, b, c)
    ensures Stores(bits, b, c, v) <==> Raw(bits, b, c) == v
  {
    RawStored(bits, b, c);
    if Stores(bits, b, c, v) {
      StoredUnique(bits, b, c, v, Raw(bits, b, c));
    }
  }
}
