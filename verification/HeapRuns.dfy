/**
 Whole runs of allocations and frees on the binned heap.
 */
module HeapRuns {
  import opened Bits
  import opened Heap
  import opened Folding

  datatype Op = Take(size: nat, arenaStart: Option<nat>) | Give(block: Block)

  /** A request of 64 bits that the arena answers properly, or the freeing of a live block. */
  ghost predicate Allowed(s: State, op: Op) {
    match op
    case Take(size, arenaStart) => size < Pow2(SIZE_BITS) && ArenaAnswers(s, size, arenaStart)
    case Give(b) => b in s.live
  }

  lemma LiveFits(s: State, b: Block)
    requires Consistent(s) && b in s.live
    ensures b.dataSize < Pow2(SIZE_BITS)
  {
    BlockHasSize(s.bins, s.blocks, s.live, b);
    var k :| 0 <= k < SIZE_BITS && b.dataSize == Pow2(k);
    Pow2Less(k, SIZE_BITS);
  }

  ghost function Step(s: State, op: Op): (t: State)
    requires Consistent(s) && Allowed(s, op)
    ensures Consistent(t)
  {
    match op
    case Take(size, arenaStart) =>
      AllocateKeeps(s, size, arenaStart);
      AllocateStep(s, size, arenaStart).0
    case Give(b) =>
      LiveFits(s, b);
      FreeKeeps(s, b);
      FreeStep(s, b)
  }

  ghost predicate AllowedRun(s: State, ops: seq<Op>)
    requires Consistent(s)
    decreases |ops|
  {
    ops == [] || (Allowed(s, ops[0]) && AllowedRun(Step(s, ops[0]), ops[1..]))
  }

  ghost function Run(s: State, ops: seq<Op>): (t: State)
    requires Consistent(s) && AllowedRun(s, ops)
    ensures Consistent(t)
    decreases |ops|
  {
    if ops == [] then s else Run(Step(s, ops[0]), ops[1..])
  }

  /** Every request of the run is for at least one byte. */
  predicate NonEmptyRequests(ops: seq<Op>) {
    forall i :: 0 <= i < |ops| && ops[i].Take? ==> ops[i].size > 0
  }

  ghost predicate NoByteBlocks(s: State) {
    forall b :: b in s.blocks ==> b.dataSize != 1
  }

  /** Blocks of one byte come from empty requests alone. */
  lemma StepKeepsNoByte(s: State, op: Op)
    requires Consistent(s) && Allowed(s, op) && NoByteBlocks(s)
    requires op.Take? ==> op.size > 0
    ensures NoByteBlocks(Step(s, op))
  {
    if op.Take? {
      BinPositive(op.size);
    }
  }

  lemma BinPositive(size: nat)
    requires 0 < size < Pow2(SIZE_BITS)
    ensures BlockSize(size) > 1
  {
    if size <= Pow2(SIZE_BITS - 1) {
      BinIsLeast(size);
    }
    Pow2Less(0, BinIndex(size));
  }

  /** Without blocks of one byte a step keeps the bins' sizes. */
  lemma StepKeepsBins(s: State, op: Op)
    requires Consistent(s) && Allowed(s, op) && BinsOk(s.bins) && NoByteBlocks(s)
    ensures BinsOk(Step(s, op).bins)
  {
    match op
    case Take(size, arenaStart) => AllocateKeepsBins(s, size, arenaStart);
    case Give(b) =>
      LiveFits(s, b);
      FreeKeepsBinsIff(s, b);
  }

  /** After every prefix of a run without empty requests, every bin has blocks of its own size only. */
  lemma {:induction false} RunKeepsBins(s: State, ops: seq<Op>)
    requires Consistent(s) && AllowedRun(s, ops) && BinsOk(s.bins) && NoByteBlocks(s) && NonEmptyRequests(ops)
    ensures BinsOk(Run(s, ops).bins) && NoByteBlocks(Run(s, ops))
    decreases |ops|
  {
    if ops != [] {
      StepKeepsBins(s, ops[0]);
      StepKeepsNoByte(s, ops[0]);
      RunKeepsBins(Step(s, ops[0]), ops[1..]);
    }
  }

  /** So every request up to 2^63 that follows such a run gets a block that holds it, and overlaps no live one. */
  lemma NextBlockHolds(s: State, ops: seq<Op>, size: nat, arenaStart: Option<nat>)
    requires Consistent(s) && AllowedRun(s, ops) && BinsOk(s.bins) && NoByteBlocks(s) && NonEmptyRequests(ops)
    requires size <= Pow2(SIZE_BITS - 1) && size < Pow2(SIZE_BITS) && ArenaAnswers(Run(s, ops), size, arenaStart)
    ensures var t := Run(s, ops);
            var (u, b) := AllocateStep(t, size, arenaStart);
            b.Some? ==> size <= b.value.dataSize && b.value !in t.live && forall a :: a in t.live ==>
              !Overlap(a, b.value)
  {
    var t := Run(s, ops);
    RunKeepsBins(s, ops);
    AllocateKeeps(t, size, arenaStart);
    AllocateKeepsBins(t, size, arenaStart);
    BlockHoldsRequest(size);
    var (u, b) := AllocateStep(t, size, arenaStart);
    if b.Some? {
      forall a | a in t.live ensures !Overlap(a, b.value) {
        LiveBlocks(u.bins, u.blocks, u.live, a, b.value);
      }
    }
  }

  /** The bins have their sizes at every point of the run. */
  ghost predicate BinsOkThroughout(s: State, ops: seq<Op>)
    requires Consistent(s) && AllowedRun(s, ops)
    decreases |ops|
  {
    BinsOk(s.bins) && (ops == [] || BinsOkThroughout(Step(s, ops[0]), ops[1..]))
  }

  predicate FreesByteBlock(ops: seq<Op>) {
    exists i :: 0 <= i < |ops| && ops[i].Give? && ops[i].block.dataSize == 1
  }

  lemma FreesByteFirst(ops: seq<Op>)
    requires ops != []
    ensures FreesByteBlock(ops) <==> (ops[0].Give? && ops[0].block.dataSize == 1) || FreesByteBlock(ops[1..])
  {
    assert forall i :: 0 < i < |ops| ==> ops[i] == ops[1..][i - 1];
    assert forall i :: 0 <= i < |ops[1..]| ==> ops[1..][i] == ops[i + 1];
  }

  /** Over any run they do exactly if no block of one byte is freed in it. */
  lemma {:induction false} ThroughoutIff(s: State, ops: seq<Op>)
    requires Consistent(s) && AllowedRun(s, ops) && BinsOk(s.bins)
    ensures BinsOkThroughout(s, ops) <==> !FreesByteBlock(ops)
    decreases |ops|
  {
    if ops != [] {
      var op := ops[0];
      match op {
        case Take(size, arenaStart) => AllocateKeepsBins(s, size, arenaStart);
        case Give(b) =>
          LiveFits(s, b);
          FreeKeepsBinsIff(s, b);
      }
      FreesByteFirst(ops);
      if BinsOk(Step(s, op).bins) {
        ThroughoutIff(Step(s, op), ops[1..]);
      }
    }
  }

  /** An empty request, freed, is handed to the next request for two bytes: a block of one. */
  lemma EmptyRequestTooSmall(s: State, start: nat)
    requires Consistent(s) && s.bins[0] == [] && ArenaAnswers(s, 0, Some(start))
    ensures var (t, b) := AllocateStep(s, 0, Some(start));
            b == Some(Block(start, 1)) && Pow2(1) == 2 < Pow2(SIZE_BITS) &&
            AllocateStep(FreeStep(t, b.value), 2, None).1 == b
  {
    Pow2Less(1, SIZE_BITS);
    assert Pow2(0) == 1 && Pow2(1) == 2;
    BinOfPower(1);
    Pow2Less(0, SIZE_BITS - 1);
    assert BinIndex(0) == 0 && BinIndex(1) == 1;
  }

  // ------------------------------------------------------- lost blocks

  predicate InBin(s: State, b: Block) {
    exists k :: 0 <= k < |s.bins| && b in s.bins[k]
  }

  /** The heap has the block, but nobody holds it and it can never be handed out again. */
  predicate Lost(s: State, b: Block) {
    b in s.blocks && b !in s.live && !InBin(s, b)
  }

  ghost predicate NothingLost(s: State) {
    forall b :: b in s.blocks ==> !Lost(s, b)
  }

  /** The request finds more than one block in its bin. */
  predicate MeetsFullBin(s: State, op: Op)
    requires |s.bins| == SIZE_BITS
  {
    op.Take? && op.size < Pow2(SIZE_BITS) && |s.bins[BinIndex(op.size)]| > 1
  }

  lemma FreshBlock(s: State, b: Block)
    requires Consistent(s) && forall c :: c in s.blocks ==> !Overlap(c, b)
    ensures b !in s.blocks
  {
    assert Overlap(b, b);
  }

  /** A lost block stays lost. */
  lemma StaysLost(s: State, op: Op, b: Block)
    requires Consistent(s) && Allowed(s, op) && Lost(s, b)
    ensures Lost(Step(s, op), b)
  {
    match op
    case Take(size, arenaStart) =>
      var k := BinIndex(size);
      if s.bins[k] != [] {
        assert s.bins[k][0] in s.bins[k];
      } else if arenaStart.Some? {
        FreshBlock(s, Block(arenaStart.value, BlockSize(size)));
      }
      assert forall m :: 0 <= m < SIZE_BITS && b in Step(s, op).bins[m] ==> b in s.bins[m];
    case Give(c) =>
      var t := Step(s, op);
      assert forall m :: 0 <= m < SIZE_BITS && b in t.bins[m] ==> b == c || b in s.bins[m];
  }

  /** What the request takes from a bin is its first block; the others are lost. */
  lemma FullBinLoses(s: State, op: Op)
    requires Consistent(s) && Allowed(s, op) && MeetsFullBin(s, op)
    ensures Lost(Step(s, op), s.bins[BinIndex(op.size)][1])
  {
    var k := BinIndex(op.size);
    InOneBin(s, k, 1);
    InOneBin(s, k, 0);
  }

  /** A block in a bin is free, and is in no other place of a bin. */
  lemma InOneBin(s: State, k: nat, i: nat)
    requires Consistent(s) && k < SIZE_BITS && i < |s.bins[k]|
    ensures var b := s.bins[k][i];
            b in s.blocks && b !in s.live && (forall m :: 0 <= m < SIZE_BITS && m != k ==> b !in s.bins[m]) &&
            forall j :: 0 <= j < |s.bins[k]| && j != i ==> s.bins[k][j] != b
  {
    assert Open(HEAP, 0);
    var b := s.bins[k][i];
    assert FreeBin(s.bins[k], s.blocks, s.live) && b in s.bins[k];
  }

  /** Any other step loses nothing. */
  lemma StepLosesNothing(s: State, op: Op)
    requires Consistent(s) && Allowed(s, op) && NothingLost(s) && !MeetsFullBin(s, op)
    ensures NothingLost(Step(s, op))
  {
    match op
    case Take(size, arenaStart) => TakeLosesNothing(s, size, arenaStart);
    case Give(b) =>
      LiveFits(s, b);
      GiveLosesNothing(s, b);
  }

  lemma TakeLosesNothing(s: State, size: nat, arenaStart: Option<nat>)
    requires Consistent(s) && NothingLost(s) && size < Pow2(SIZE_BITS) && |s.bins[BinIndex(size)]| <= 1
    ensures NothingLost(AllocateStep(s, size, arenaStart).0)
  {
    var t := AllocateStep(s, size, arenaStart).0;
    forall b | b in t.blocks ensures !Lost(t, b) {
      if b in s.blocks && b !in t.live {
        assert !Lost(s, b);
        var m :| 0 <= m < SIZE_BITS && b in s.bins[m];
        assert b in t.bins[m];
      }
    }
  }

  lemma GiveLosesNothing(s: State, c: Block)
    requires Consistent(s) && NothingLost(s) && c.dataSize < Pow2(SIZE_BITS)
    ensures NothingLost(FreeStep(s, c))
  {
    var t := FreeStep(s, c);
    forall b | b in t.blocks ensures !Lost(t, b) {
      assert !Lost(s, b);
      if b == c {
        assert b in t.bins[BinIndex(c.dataSize)];
      } else if b !in s.live {
        var m :| 0 <= m < SIZE_BITS && b in s.bins[m];
        assert b in t.bins[m];
      }
    }
  }

  /** Some request of the run finds more than one block in its bin. */
  ghost predicate RunMeetsFullBin(s: State, ops: seq<Op>)
    requires Consistent(s) && AllowedRun(s, ops)
    decreases |ops|
  {
    ops != [] && (MeetsFullBin(s, ops[0]) || RunMeetsFullBin(Step(s, ops[0]), ops[1..]))
  }

  lemma {:induction false} StaysLostOver(s: State, ops: seq<Op>, b: Block)
    requires Consistent(s) && AllowedRun(s, ops) && Lost(s, b)
    ensures Lost(Run(s, ops), b)
    decreases |ops|
  {
    if ops != [] {
      StaysLost(s, ops[0], b);
      StaysLostOver(Step(s, ops[0]), ops[1..], b);
    }
  }

  /**
   Over any run from a state that has lost nothing, every block is live or in a bin at the
   end exactly if no request met a bin that held more than one block.
   */
  lemma {:induction false} LosesNothingIff(s: State, ops: seq<Op>)
    requires Consistent(s) && AllowedRun(s, ops) && NothingLost(s)
    ensures NothingLost(Run(s, ops)) <==> !RunMeetsFullBin(s, ops)
    decreases |ops|
  {
    if ops != [] {
      if MeetsFullBin(s, ops[0]) {
        var b := s.bins[BinIndex(ops[0].size)][1];
        FullBinLoses(s, ops[0]);
        StaysLostOver(Step(s, ops[0]), ops[1..], b);
      } else {
        StepLosesNothing(s, ops[0]);
        LosesNothingIff(Step(s, ops[0]), ops[1..]);
      }
    }
  }

  ghost predicate NothingLostThroughout(s: State, ops: seq<Op>)
    requires Consistent(s) && AllowedRun(s, ops)
    decreases |ops|
  {
    NothingLost(s) && (ops == [] || NothingLostThroughout(Step(s, ops[0]), ops[1..]))
  }

  /** And so at every point of the run. */
  lemma {:induction false} NothingLostThroughoutIff(s: State, ops: seq<Op>)
    requires Consistent(s) && AllowedRun(s, ops) && NothingLost(s)
    ensures NothingLostThroughout(s, ops) <==> !RunMeetsFullBin(s, ops)
    decreases |ops|
  {
    if ops != [] {
      if MeetsFullBin(s, ops[0]) {
        FullBinLoses(s, ops[0]);
        assert !NothingLost(Step(s, ops[0]));
      } else {
        StepLosesNothing(s, ops[0]);
        NothingLostThroughoutIff(Step(s, ops[0]), ops[1..]);
      }
    }
  }

  lemma BothInBin(s: State, a: Block, b: Block)
    requires |s.bins| == SIZE_BITS && a.dataSize < Pow2(SIZE_BITS) && b.dataSize < Pow2(SIZE_BITS)
    requires BinIndex(a.dataSize) == BinIndex(b.dataSize)
    ensures var bin := FreeStep(FreeStep(s, a), b).bins[BinIndex(a.dataSize)];
            |bin| > 1 && bin[1] == a
  {
    var k := BinIndex(a.dataSize);
    assert FreeStep(FreeStep(s, a), b).bins[k] == [b] + ([a] + s.bins[k]);
  }

  /** Two blocks are freed into one bin, and one request later the first of them is lost. */
  lemma SecondFreeLoses(s: State, a: Block, b: Block, size: nat)
    requires Consistent(s) && a in s.live && b in s.live && a != b
    requires size < Pow2(SIZE_BITS) && a.dataSize < Pow2(SIZE_BITS) && b.dataSize < Pow2(SIZE_BITS)
    requires BinIndex(a.dataSize) == BinIndex(b.dataSize) == BinIndex(size)
    ensures var ops := [Give(a), Give(b), Take(size, None)];
            AllowedRun(s, ops) && Lost(Run(s, ops), a)
  {
    var t := Step(s, Give(a));
    var u := Step(t, Give(b));
    BothInBin(s, a, b);
    FullBinLoses(u, Take(size, None));
    RunFrom(u, Take(size, None), []);
    RunFrom(t, Give(b), [Take(size, None)]);
    RunFrom(s, Give(a), [Give(b), Take(size, None)]);
    assert [Give(a), Give(b), Take(size, None)] == [Give(a)] + ([Give(b)] + ([Take(size, None)] + []));
  }

  /** From the empty heap: of two blocks allocated and freed, one is lost to the next request. */
  lemma LosingRun()
    ensures Pow2(4) == 16 < Pow2(SIZE_BITS)
    ensures var s := State(seq(SIZE_BITS, _ => []), {}, {});
            var a, b := Block(0, 16), Block(100, 16);
            var ops := [Take(16, Some(0)), Take(16, Some(100)), Give(a), Give(b), Take(16, None)];
            Consistent(s) && NothingLost(s) && AllowedRun(s, ops) && Lost(Run(s, ops), a)
  {
    SixteenFits();
    var s := State(seq(SIZE_BITS, _ => []), {}, {});
    var a, b := Block(0, 16), Block(100, 16);
    var tail := [Give(a), Give(b), Take(16, None)];
    assert !Overlap(a, b);
    var t := Step(s, Take(16, Some(0)));
    assert t.live == {a} && t.blocks == {a} && t.bins == s.bins;
    var u := Step(t, Take(16, Some(100)));
    assert u.live == {a, b};
    SecondFreeLoses(u, a, b, 16);
    RunFrom(t, Take(16, Some(100)), tail);
    RunFrom(s, Take(16, Some(0)), [Take(16, Some(100))] + tail);
    assert [Take(16, Some(0)), Take(16, Some(100)), Give(a), Give(b), Take(16, None)] ==
           [Take(16, Some(0))] + ([Take(16, Some(100))] + tail);
  }

  lemma SixteenFits()
    ensures Pow2(4) == 16 < Pow2(SIZE_BITS) && BinIndex(16) == 4 && BlockSize(16) == 16
  {
    assert Pow2(2) == 4 && Pow2(4) == 16;
    BinOfPower(4);
  }

  lemma RunFrom(s: State, op: Op, ops: seq<Op>)
    requires Consistent(s) && Allowed(s, op) && AllowedRun(Step(s, op), ops)
    ensures AllowedRun(s, [op] + ops) && Run(s, [op] + ops) == Run(Step(s, op), ops)
  {
    assert ([op] + ops)[1..] == ops;
  }
}
