/**
 The binned heap over an arena (src/aml_heap.c): a request is rounded up to a power of
 two, and freed blocks wait in the bin of their size.
 */
module Heap {
  import opened Bits
  import opened Folding

  datatype Option<T> = None | Some(value: T)

  const SIZE_BITS: nat := 64
  const HEADER_SIZE: nat := 16

  /** A block: where its header starts, and how much data the header says follows it. */
  datatype Block = Block(start: nat, dataSize: nat)

  /** The number of zero bits above the highest one bit of a 64-bit word. */
  function LeadingZeros(x: nat): (n: nat)
    requires x < Pow2(SIZE_BITS)
    ensures n <= SIZE_BITS
  {
    LeadingFrom(x, SIZE_BITS)
  }

  function LeadingFrom(x: nat, width: nat): (n: nat)
    requires x < Pow2(width)
    ensures n <= width
  {
    if width == 0 then 0 else if x >= Pow2(width - 1) then 0 else 1 + LeadingFrom(x, width - 1)
  }

  /** AmlHeapBinIndexForSize. */
  function BinIndex(size: nat): (k: nat)
    requires size < Pow2(SIZE_BITS)
    ensures k < SIZE_BITS
  {
    if size >= Pow2(SIZE_BITS - 1) then SIZE_BITS - 1
    else if size == 0 then 0
    else if size == 1 then 1
    else
      LeadingOfSmall(size - 1);
      SIZE_BITS - LeadingZeros(size - 1)
  }

  /** What a block allocated for the size holds. */
  function BlockSize(size: nat): nat
    requires size < Pow2(SIZE_BITS)
  {
    Pow2(BinIndex(size))
  }

  lemma {:induction false} LeadingExact(x: nat, width: nat)
    requires x < Pow2(width)
    ensures x < Pow2(width - LeadingFrom(x, width))
    ensures x > 0 ==> LeadingFrom(x, width) < width && Pow2(width - LeadingFrom(x, width) - 1) <= x
    decreases width
  {
    if width > 0 && x < Pow2(width - 1) {
      LeadingExact(x, width - 1);
    }
  }

  lemma LeadingOfSmall(x: nat)
    requires 0 < x < Pow2(SIZE_BITS - 1)
    ensures 0 < LeadingZeros(x)
  {
  }

  /** The bin is the least one, from 1 on, whose blocks hold the request. */
  lemma BinIsLeast(size: nat)
    requires 1 <= size <= Pow2(SIZE_BITS - 1)
    ensures 1 <= BinIndex(size) && size <= Pow2(BinIndex(size))
    ensures forall k :: 1 <= k && size <= Pow2(k) ==> BinIndex(size) <= k
  {
    BinBound(size);
    forall k | 1 <= k && size <= Pow2(k) ensures BinIndex(size) <= k {
      if k < BinIndex(size) {
        Pow2AtMost(k, BinIndex(size) - 1);
      }
    }
  }

  /** The blocks of the bin hold the request, those of the bin before it do not. */
  lemma BinBound(size: nat)
    requires 1 <= size <= Pow2(SIZE_BITS - 1) && size < Pow2(SIZE_BITS)
    ensures 1 <= BinIndex(size) && size <= Pow2(BinIndex(size))
    ensures BinIndex(size) > 1 ==> Pow2(BinIndex(size) - 1) < size
  {
    if size == Pow2(SIZE_BITS - 1) {
      Pow2Less(SIZE_BITS - 2, SIZE_BITS - 1);
    } else if size > 1 {
      MiddleBound(size);
    }
  }

  lemma MiddleBound(size: nat)
    requires 1 < size < Pow2(SIZE_BITS - 1) && size < Pow2(SIZE_BITS)
    ensures 1 <= BinIndex(size) && Pow2(BinIndex(size) - 1) < size <= Pow2(BinIndex(size))
  {
    LeadingExact(size - 1, SIZE_BITS);
  }

  lemma {:induction false} Pow2Less(m: nat, n: nat)
    requires m < n
    ensures Pow2(m) < Pow2(n)
    decreases n
  {
    if m < n - 1 {
      Pow2Less(m, n - 1);
    }
  }

  lemma Pow2AtMost(m: nat, n: nat)
    requires m <= n
    ensures Pow2(m) <= Pow2(n)
  {
  }

  /** A block is big enough exactly for requests of at most 2^63 bytes. */
  lemma BlockHoldsRequest(size: nat)
    requires size < Pow2(SIZE_BITS)
    ensures size <= BlockSize(size) <==> size <= Pow2(SIZE_BITS - 1)
  {
    if 1 <= size <= Pow2(SIZE_BITS - 1) {
      BinIsLeast(size);
    }
  }

  lemma BinOfPower(k: nat)
    requires 1 <= k < SIZE_BITS
    ensures Pow2(k) < Pow2(SIZE_BITS) && BinIndex(Pow2(k)) == k
  {
    Pow2Less(k, SIZE_BITS);
    Pow2AtMost(k, SIZE_BITS - 1);
    Pow2AtMost(0, k);
    BinIsLeast(Pow2(k));
    var b := BinIndex(Pow2(k));
    if b < k {
      Pow2Less(b, k);
    }
  }

  /** A freed block goes back to the bin it was taken for, except the block of an empty request. */
  lemma FreedToSameBin(size: nat)
    requires size < Pow2(SIZE_BITS)
    ensures BlockSize(size) < Pow2(SIZE_BITS)
    ensures BinIndex(BlockSize(size)) == BinIndex(size) <==> size != 0
  {
    var k := BinIndex(size);
    Pow2Less(k, SIZE_BITS);
    if size == 0 {
      assert Pow2(0) == 1;
      Pow2Less(0, SIZE_BITS - 1);
    } else {
      if size <= Pow2(SIZE_BITS - 1) {
        BinIsLeast(size);
      }
      BinOfPower(k);
    }
  }

  // ---------------------------------------------------------------- state

  /** Headers included. */
  predicate Overlap(a: Block, b: Block) {
    a.start < b.start + HEADER_SIZE + b.dataSize && b.start < a.start + HEADER_SIZE + a.dataSize
  }

  /** Every block of bin k has the bin's size. */
  predicate BinOk(bin: seq<Block>, k: nat) {
    forall i :: 0 <= i < |bin| ==> bin[i].dataSize == Pow2(k)
  }

  ghost predicate BinsOk(bins: seq<seq<Block>>) {
    |bins| == SIZE_BITS && forall k :: 0 <= k < SIZE_BITS ==> BinOk(bins[k], k)
  }

  /** The blocks of the bin are free, and each is in the bin once. */
  ghost predicate FreeBin(bin: seq<Block>, blocks: set<Block>, live: set<Block>) {
    (forall i :: 0 <= i < |bin| ==> bin[i] in blocks - live) &&
    (forall i, j :: 0 <= i < j < |bin| ==> bin[i] != bin[j])
  }

  ghost predicate NoneOverlap(blocks: set<Block>) {
    forall a, b :: a in blocks && b in blocks && a != b ==> !Overlap(a, b)
  }

  ghost predicate IsBlockSize(n: nat) {
    exists k :: 0 <= k < SIZE_BITS && n == Pow2(k)
  }

  /**
   The blocks never overlap, those in bins are free, and none is in two places.  Blocks
   that are neither live nor in a bin are lost.
   */
  ghost predicate Sound(bins: seq<seq<Block>>, blocks: set<Block>, live: set<Block>) {
    |bins| == SIZE_BITS && live <= blocks && forall key :: Open(HEAP, key) ==> SoundOpen(bins, blocks, live)
  }

  ghost predicate SoundOpen(bins: seq<seq<Block>>, blocks: set<Block>, live: set<Block>)
    requires |bins| == SIZE_BITS
  {
    NoneOverlap(blocks) && (forall b :: b in blocks ==> IsBlockSize(b.dataSize)) &&
    (forall k :: 0 <= k < SIZE_BITS ==> FreeBin(bins[k], blocks, live)) &&
    (forall k, m, b :: 0 <= k < m < SIZE_BITS && b in bins[k] ==> b !in bins[m])
  }

  lemma LiveBlocks(bins: seq<seq<Block>>, blocks: set<Block>, live: set<Block>, a: Block, b: Block)
    requires Sound(bins, blocks, live) && a in live && b in live && a != b
    ensures !Overlap(a, b) && IsBlockSize(a.dataSize)
    ensures forall k :: 0 <= k < SIZE_BITS ==> a !in bins[k]
  {
    assert Open(HEAP, 0);
    forall k | 0 <= k < SIZE_BITS ensures a !in bins[k] {
      assert FreeBin(bins[k], blocks, live);
    }
  }

  lemma BlockHasSize(bins: seq<seq<Block>>, blocks: set<Block>, live: set<Block>, b: Block)
    requires Sound(bins, blocks, live) && b in blocks
    ensures IsBlockSize(b.dataSize)
  {
    assert Open(HEAP, 0);
  }

  lemma PopSound(bins: seq<seq<Block>>, blocks: set<Block>, live: set<Block>, k: nat)
    requires Sound(bins, blocks, live) && k < SIZE_BITS && bins[k] != []
    ensures Sound(bins[k := []], blocks, live + {bins[k][0]}) && bins[k][0] !in live
  {
    assert Open(HEAP, 0);
    var entry := bins[k][0];
    assert FreeBin(bins[k], blocks, live) && entry in bins[k];
    forall m | 0 <= m < SIZE_BITS && m != k ensures FreeBin(bins[m], blocks, live + {entry}) {
      assert FreeBin(bins[m], blocks, live);
      assert entry !in bins[m];
    }
  }

  lemma NewSound(bins: seq<seq<Block>>, blocks: set<Block>, live: set<Block>, b: Block, k: nat)
    requires Sound(bins, blocks, live) && k < SIZE_BITS && b.dataSize == Pow2(k)
    requires forall c :: c in blocks ==> !Overlap(c, b)
    ensures Sound(bins, blocks + {b}, live + {b}) && b !in blocks
  {
  }

  lemma FreeSound(bins: seq<seq<Block>>, blocks: set<Block>, live: set<Block>, b: Block, k: nat)
    requires Sound(bins, blocks, live) && k < SIZE_BITS && b in live
    ensures Sound(bins[k := [b] + bins[k]], blocks, live - {b})
  {
  }

  lemma PopBins(bins: seq<seq<Block>>, k: nat)
    requires BinsOk(bins) && k < SIZE_BITS && bins[k] != []
    ensures BinsOk(bins[k := []]) && bins[k][0].dataSize == Pow2(k)
  {
  }

  /** A freed block keeps the bins' sizes exactly when it holds more than one byte. */
  lemma FreedBin(bins: seq<seq<Block>>, b: Block)
    requires IsBlockSize(b.dataSize) && b.dataSize < Pow2(SIZE_BITS) && BinsOk(bins)
    ensures var k := BinIndex(b.dataSize);
            BinsOk(bins[k := [b] + bins[k]]) <==> b.dataSize != 1
  {
    var j :| 0 <= j < SIZE_BITS && b.dataSize == Pow2(j);
    var k := BinIndex(b.dataSize);
    var after := bins[k := [b] + bins[k]];
    assert BinOk(bins[k], k);
    if j > 0 {
      BinOfPower(j);
      Pow2Less(0, j);
      assert BinOk(after[k], k);
    } else {
      Pow2Less(0, SIZE_BITS - 1);
      assert after[1][0] == b && Pow2(1) == 2;
      assert !BinOk(after[1], 1);
    }
  }

  // ---------------------------------------------------------------- steps

  /** bins: each bin's free list, head first; every block taken from the arena; those handed out and not freed. */
  datatype State = State(bins: seq<seq<Block>>, blocks: set<Block>, live: set<Block>)

  ghost predicate Consistent(s: State) {
    Sound(s.bins, s.blocks, s.live)
  }

  /**
   AmlHeapAllocate; arenaStart is the arena's answer when it is asked for a new block.
   Taking a block out of a bin empties the bin, so the blocks behind it are lost.
   */
  function AllocateStep(s: State, size: nat, arenaStart: Option<nat>): (r: (State, Option<Block>))
    requires |s.bins| == SIZE_BITS && size < Pow2(SIZE_BITS)
    ensures |r.0.bins| == SIZE_BITS
  {
    var k := BinIndex(size);
    if s.bins[k] != [] then (s.(bins := s.bins[k := []], live := s.live + {s.bins[k][0]}), Some(s.bins[k][0]))
    else if arenaStart.None? then (s, None)
    else
      var b := Block(arenaStart.value, BlockSize(size));
      (s.(blocks := s.blocks + {b}, live := s.live + {b}), Some(b))
  }

  /** AmlHeapFree. */
  function FreeStep(s: State, b: Block): (t: State)
    requires |s.bins| == SIZE_BITS && b.dataSize < Pow2(SIZE_BITS)
    ensures |t.bins| == SIZE_BITS
  {
    var k := BinIndex(b.dataSize);
    s.(bins := s.bins[k := [b] + s.bins[k]], live := s.live - {b})
  }

  /** What the arena answers does not overlap what it gave before. */
  ghost predicate ArenaAnswers(s: State, size: nat, arenaStart: Option<nat>)
    requires size < Pow2(SIZE_BITS)
  {
    arenaStart.Some? ==> forall c :: c in s.blocks ==> !Overlap(c, Block(arenaStart.value, BlockSize(size)))
  }

  lemma AllocateKeeps(s: State, size: nat, arenaStart: Option<nat>)
    requires Consistent(s) && size < Pow2(SIZE_BITS) && ArenaAnswers(s, size, arenaStart)
    ensures Consistent(AllocateStep(s, size, arenaStart).0)
    ensures var (t, b) := AllocateStep(s, size, arenaStart);
            (b.Some? ==> b.value !in s.live && t.live == s.live + {b.value}) && (b.None? ==> t == s)
  {
    var k := BinIndex(size);
    if s.bins[k] != [] {
      PopSound(s.bins, s.blocks, s.live, k);
    } else if arenaStart.Some? {
      NewSound(s.bins, s.blocks, s.live, Block(arenaStart.value, BlockSize(size)), k);
    }
  }

  /** Bins that have their sizes keep them, and then the block has the size the request was rounded up to. */
  lemma AllocateKeepsBins(s: State, size: nat, arenaStart: Option<nat>)
    requires BinsOk(s.bins) && size < Pow2(SIZE_BITS)
    ensures var (t, b) := AllocateStep(s, size, arenaStart);
            BinsOk(t.bins) && (b.Some? ==> b.value.dataSize == BlockSize(size))
  {
    if s.bins[BinIndex(size)] != [] {
      PopBins(s.bins, BinIndex(size));
    }
  }

  lemma FreeKeeps(s: State, b: Block)
    requires Consistent(s) && b in s.live && b.dataSize < Pow2(SIZE_BITS)
    ensures Consistent(FreeStep(s, b))
  {
    FreeSound(s.bins, s.blocks, s.live, b, BinIndex(b.dataSize));
  }

  lemma FreeKeepsBinsIff(s: State, b: Block)
    requires Consistent(s) && b in s.live && b.dataSize < Pow2(SIZE_BITS) && BinsOk(s.bins)
    ensures BinsOk(FreeStep(s, b).bins) <==> b.dataSize != 1
  {
    BlockHasSize(s.bins, s.blocks, s.live, b);
    FreedBin(s.bins, b);
  }

  class Heap {
    var bins: seq<seq<Block>>
    ghost var blocks: set<Block>
    ghost var live: set<Block>

    ghost function Model(): State
      reads this
    {
      State(bins, blocks, live)
    }

    ghost predicate Valid()
      reads this
    {
      Consistent(Model())
    }

    constructor ()
      ensures Valid() && BinsOk(bins) && blocks == {} && live == {}
    {
      bins := seq(SIZE_BITS, _ => []);
      blocks, live := {}, {};
    }

    method Allocate(size: nat, arenaStart: Option<nat>) returns (b: Option<Block>)
      requires Valid() && size < Pow2(SIZE_BITS) && ArenaAnswers(Model(), size, arenaStart)
      modifies this
      ensures Valid() && (Model(), b) == AllocateStep(old(Model()), size, arenaStart)
      ensures b.Some? ==> b.value !in old(live) && live == old(live) + {b.value}
      ensures BinsOk(old(bins)) ==> BinsOk(bins) && (b.Some? ==> b.value.dataSize == BlockSize(size))
    {
      AllocateKeeps(Model(), size, arenaStart);
      if BinsOk(bins) {
        AllocateKeepsBins(Model(), size, arenaStart);
      }
      var k := BinIndex(size);
      var blockSize := Pow2(k);
      if bins[k] != [] {
        var entry := bins[k][0];
        bins := bins[k := []];
        live := live + {entry};
        return Some(entry);
      }
      if arenaStart.None? {
        return None;
      }
      var entry := Block(arenaStart.value, blockSize);
      blocks := blocks + {entry};
      live := live + {entry};
      return Some(entry);
    }

    /** The bins keep their sizes unless the block came from an empty request. */
    method Free(b: Block)
      requires Valid() && b in live && b.dataSize < Pow2(SIZE_BITS)
      modifies this
      ensures Valid() && Model() == FreeStep(old(Model()), b)
      ensures BinsOk(old(bins)) ==> (BinsOk(bins) <==> b.dataSize != 1)
    {
      FreeKeeps(Model(), b);
      if BinsOk(bins) {
        FreeKeepsBinsIff(Model(), b);
      }
      var k := BinIndex(b.dataSize);
      bins := bins[k := [b] + bins[k]];
      live := live - {b};
    }
  }
}
