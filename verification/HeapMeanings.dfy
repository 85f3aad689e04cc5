/**
 The heap in numbers of bytes: what sizes blocks have, when they are apart, and which block a request is given.
 */
module HeapMeanings {
  import opened Bits
  import opened Heap

  /** Blocks are apart when one ends, 16 bytes of header included, before the other starts. */
  lemma ApartIs(a: Block, b: Block)
    ensures !Overlap(a, b) <==> a.start + 16 + a.dataSize <= b.start || b.start + 16 + b.dataSize <= a.start
  {
  }

  lemma Words()
    ensures Pow2(SIZE_BITS) == 0x1_0000_0000_0000_0000 && Pow2(SIZE_BITS - 1) == 0x8000_0000_0000_0000
  {
    assert Pow2(3) == 8 && Pow2(5) == 32 && Pow2(7) == 128;
    Pow2Plus8(7);
    Pow2Plus8(15);
    Pow2Plus8(23);
    Pow2Plus8(31);
    Pow2Plus8(39);
    Pow2Plus8(47);
    Pow2Plus8(55);
  }

  /** The bin of a request is the one between whose powers of two it lies. */
  lemma BinBetween(size: nat, k: nat)
    requires 1 <= k && Pow2(k - 1) < size <= Pow2(k) && size <= 0x8000_0000_0000_0000
    ensures size < Pow2(SIZE_BITS) && BinIndex(size) == k && BlockSize(size) == Pow2(k)
  {
    Words();
    BinIsLeast(size);
    if BinIndex(size) < k {
      Pow2AtMost(BinIndex(size), k - 1);
    }
  }

  /** Requests of no, of one and of two bytes, of 3, 17, 4096 and 2^63 bytes, and more. */
  lemma KnownSizes()
    ensures Pow2(SIZE_BITS) == 0x1_0000_0000_0000_0000
    ensures BlockSize(0) == 1 && BlockSize(1) == 2 && BlockSize(2) == 2 && BlockSize(3) == 4 && BlockSize(17) == 32
    ensures BlockSize(4096) == 4096
    ensures forall size :: 0x8000_0000_0000_0000 <= size < 0x1_0000_0000_0000_0000 ==>
              BlockSize(size) == 0x8000_0000_0000_0000
  {
    Words();
    assert Pow2(5) == 32 && Pow2(11) == 2048 && Pow2(12) == 4096;
    BinBetween(2, 1);
    BinBetween(3, 2);
    BinBetween(17, 5);
    BinBetween(4096, 12);
  }

  /** Some bin has a free block of the size. */
  ghost predicate FreeBlockOf(s: State, dataSize: nat) {
    exists k: nat, i: nat :: IsFree(s, k, i) && s.bins[k][i].dataSize == dataSize
  }

  predicate IsFree(s: State, k: nat, i: nat) {
    k < |s.bins| && i < |s.bins[k]|
  }

  /** A request is refused exactly if there is no free block of its size and the arena has no room. */
  lemma RefusedIff(s: State, size: nat, arenaStart: Option<nat>)
    requires BinsOk(s.bins) && size < Pow2(SIZE_BITS)
    ensures AllocateStep(s, size, arenaStart).1 == None <==> arenaStart == None && !FreeBlockOf(s, BlockSize(size))
  {
    var k := BinIndex(size);
    if s.bins[k] != [] {
      assert BinOk(s.bins[k], k) && IsFree(s, k, 0);
    }
    if FreeBlockOf(s, BlockSize(size)) {
      var m: nat, i: nat :| IsFree(s, m, i) && s.bins[m][i].dataSize == BlockSize(size);
      assert BinOk(s.bins[m], m);
      SameExponent(m, k);
    }
  }

  lemma SameExponent(m: nat, k: nat)
    requires Pow2(m) == Pow2(k)
    ensures m == k
  {
    if m < k {
      Pow2Less(m, k);
    } else if k < m {
      Pow2Less(k, m);
    }
  }

  /** A free block of its size comes first, and only then a new one where the arena has room. */
  lemma FreeFirst(s: State, size: nat, start: nat)
    requires BinsOk(s.bins) && size < Pow2(SIZE_BITS)
    ensures var (t, b) := AllocateStep(s, size, Some(start));
            b.Some? && b.value.dataSize == BlockSize(size) &&
            if FreeBlockOf(s, BlockSize(size)) then t.blocks == s.blocks && b.value in s.bins[BinIndex(size)]
            else b.value.start == start && t.blocks == s.blocks + {b.value} && t.bins == s.bins
  {
    RefusedIff(s, size, None);
    AllocateKeepsBins(s, size, Some(start));
  }

  /** What has just been freed is given to the next request of that size, whatever the arena would answer. */
  lemma FreedIsNext(s: State, b: Block, size: nat, arenaStart: Option<nat>)
    requires |s.bins| == SIZE_BITS && 0 < size < Pow2(SIZE_BITS) && b.dataSize == BlockSize(size)
    requires b.dataSize < Pow2(SIZE_BITS)
    ensures AllocateStep(FreeStep(s, b), size, arenaStart).1 == Some(b)
  {
    FreedToSameBin(size);
  }
}
