/**
 Fields of an operation region (AmlFieldRead and AmlFieldWrite of
 src/aml_field.c): any bit offset and length, accessed in words of 8 to 64 bits,
 with read-modify-write and three update rules.
 */
module RegionField {
  import opened Bits
  import opened FieldBits
  import opened Region
  import CopyBits
  import opened Folding

  datatype AccessType = AnyAcc | ByteAcc | WordAcc | DWordAcc | QWordAcc | BufferAcc | ReservedAcc

  datatype UpdateRule = Preserve | WriteAsOnes | WriteAsZeros | ReservedRule

  /** region is null when the field's region object is missing or of another type. */
  datatype Field = Field(region: OperationRegion?, access: AccessType, offset: nat, length: nat, rule: UpdateRule)

  /** The access word in bits; 0 for the types the word engine refuses. */
  function WidthOf(a: AccessType): (w: nat)
    ensures w == 0 || IsAccessWidth(w)
    ensures w == 0 <==> a.BufferAcc? || a.ReservedAcc?
  {
    match a
    case AnyAcc => 8
    case ByteAcc => 8
    case WordAcc => 16
    case DWordAcc => 32
    case QWordAcc => 64
    case BufferAcc => 0
    case ReservedAcc => 0
  }

  /** x & ~(w - 1): the start of the access word bit x is in. */
  function AlignDown(x: nat, w: nat): nat
    requires w > 0
    decreases x
  {
    if x < w then 0 else w + AlignDown(x - w, w)
  }

  function AlignUp(x: nat, w: nat): nat
    requires w > 0
  {
    AlignDown(x + (w - 1), w)
  }

  lemma {:induction false} AlignFacts(x: nat, w: nat)
    requires w > 0
    ensures AlignDown(x, w) <= x < AlignDown(x, w) + w
    ensures AlignDown(AlignDown(x, w), w) == AlignDown(x, w)
    decreases x
  {
    if x >= w {
      AlignFacts(x - w, w);
    }
  }

  lemma {:induction false} AlignByte(x: nat, w: nat)
    requires IsAccessWidth(w)
    ensures AlignDown(x, w) % 8 == 0
    decreases x
  {
    if x >= w {
      AlignByte(x - w, w);
    }
  }

  /** The word-local bit offset. */
  lemma {:induction false} AlignMod(x: nat, w: nat)
    requires w > 0
    ensures x % w == x - AlignDown(x, w)
    decreases x
  {
    if x >= w {
      AlignMod(x - w, w);
      ModUnique(x, w, (x - w) / w + 1, (x - w) % w);
    }
  }

  /** Going up from a boundary stays; from inside a word it reaches the next boundary. */
  lemma {:induction false} AlignUpFacts(x: nat, w: nat)
    requires w > 0
    ensures AlignUp(x, w) == if AlignDown(x, w) == x then x else AlignDown(x, w) + w
    decreases x
  {
    if x >= w {
      AlignUpFacts(x - w, w);
    } else if x > 0 {
      assert AlignDown(x + (w - 1), w) == w + AlignDown(x - 1, w);
    }
  }

  // ------------------------------------------------------ specification

  /** What a bit of a touched word outside the field becomes. */
  predicate FillBit(rule: UpdateRule, allowTruncation: bool, oldBit: bool) {
    match rule
    case Preserve => !allowTruncation && oldBit
    case WriteAsOnes => true
    case WriteAsZeros => false
    case ReservedRule => false
  }

  /** Bit j of the region after the field has been written. */
  predicate WrittenBit(pre: Bytes, f: Field, w: nat, input: Bytes, allowTruncation: bool, j: nat)
    requires IsAccessWidth(w) && j < 8 * |pre|
  {
    if f.offset <= j < f.offset + f.length then InputBit(input, j - f.offset)
    else if f.length > 0 && AlignDown(f.offset, w) <= j < AlignUp(f.offset + f.length, w)
    then FillBit(f.rule, allowTruncation, BitAt(pre, j))
    else BitAt(pre, j)
  }

  /** The region after every word below bit position limit has been written. */
  ghost predicate WrittenBelow(pre: Bytes, post: Bytes, f: Field, w: nat, input: Bytes, allowTruncation: bool,
                               limit: nat)
    requires IsAccessWidth(w)
  {
    forall key :: Open(WRITTEN, key) ==> WrittenBits(pre, post, f, w, input, allowTruncation, limit)
  }

  ghost predicate WrittenBits(pre: Bytes, post: Bytes, f: Field, w: nat, input: Bytes, allowTruncation: bool,
                              limit: nat)
    requires IsAccessWidth(w)
  {
    |post| == |pre| &&
    forall j: nat | j < 8 * |pre| ::
      BitAt(post, j) == if j < limit then WrittenBit(pre, f, w, input, allowTruncation, j) else BitAt(pre, j)
  }

  ghost predicate Written(pre: Bytes, post: Bytes, f: Field, w: nat, input: Bytes, allowTruncation: bool)
    requires IsAccessWidth(w)
  {
    WrittenBits(pre, post, f, w, input, allowTruncation, 8 * |pre|)
  }

  /** The bounds test made before the first access, in bytes. */
  predicate PassesBoundsTest(f: Field, w: nat, regionLength: nat)
    requires IsAccessWidth(w)
  {
    AlignUp(f.length, w) / 8 <= regionLength && f.offset / 8 <= regionLength - AlignUp(f.length, w) / 8
  }

  /** Every access word of the first bits bits of the field lies inside the region. */
  predicate WordsInside(f: Field, w: nat, bits: nat, regionLength: nat)
    requires IsAccessWidth(w)
  {
    bits == 0 || AlignUp(f.offset + bits, w) <= 8 * regionLength
  }

  // -------------------------------------------------------- one word

  /** The bits a write cycle updates: count bits from bitOffset on. */
  function WordMask(count: nat, bitOffset: nat, w: nat): (m: nat)
    requires 1 <= count <= 64 && 1 <= w <= 64
    ensures m < Pow2(64)
  {
    var accessWidthMask := LowMask(w, 64);
    var fieldWidthMask := LowMask(count, 64);
    ShlBound(And(fieldWidthMask, accessWidthMask), bitOffset, 64);
    Shl(And(fieldWidthMask, accessWidthMask), bitOffset, 64)
  }

  lemma BitWordMask(count: nat, bitOffset: nat, w: nat, k: nat)
    requires 1 <= count && bitOffset + count <= w <= 64 && k < 64
    ensures Bit(WordMask(count, bitOffset, w), k) == (bitOffset <= k < bitOffset + count)
  {
    var m := And(LowMask(count, 64), LowMask(w, 64));
    BitShl(m, bitOffset, 64, k);
    if bitOffset <= k {
      BitAnd(LowMask(count, 64), LowMask(w, 64), k - bitOffset);
      BitLowMask(count, 64, k - bitOffset);
      BitLowMask(w, 64, k - bitOffset);
    }
  }

  /** Replace the masked bits of a word by the shifted input. */
  function Merge(word: nat, mask: nat, inputWord: nat, bitOffset: nat): nat
    requires mask < Pow2(64)
  {
    Or(And(word, Not(mask, 64)), And(Shl(inputWord, bitOffset, 64), mask))
  }

  lemma BitMerge(word: nat, mask: nat, inputWord: nat, bitOffset: nat, k: nat)
    requires mask < Pow2(64) && k < 64
    ensures Bit(Merge(word, mask, inputWord, bitOffset), k)
         == if Bit(mask, k) then bitOffset <= k && Bit(inputWord, k - bitOffset) else Bit(word, k)
  {
    BitOr(And(word, Not(mask, 64)), And(Shl(inputWord, bitOffset, 64), mask), k);
    BitAnd(word, Not(mask, 64), k);
    BitNot(mask, 64, k);
    BitAnd(Shl(inputWord, bitOffset, 64), mask, k);
    BitShl(inputWord, bitOffset, 64, k);
  }

  // ------------------------------------------------------------- chunks

  /** A chunk of n bits from bit y ends in y's own word; a full one ends on its boundary. */
  lemma {:induction false} ChunkFacts(y: nat, n: nat, w: nat)
    requires w > 0 && 1 <= n && y + n <= AlignDown(y, w) + w
    ensures AlignUp(y + n, w) == AlignDown(y, w) + w
    ensures y + n == AlignDown(y, w) + w ==> AlignDown(y + n, w) == y + n
    decreases y
  {
    if y >= w {
      ChunkFacts(y - w, n, w);
    } else {
      assert AlignDown(y + n + (w - 1), w) == w + AlignDown(y + n - 1, w);
    }
  }

  /** The last touched word of a field does not end before any word it passes through. */
  lemma {:induction false} LaterWord(y: nat, z: nat, w: nat)
    requires w > 0 && y < z
    ensures AlignDown(y, w) + w <= AlignUp(z, w)
    decreases y
  {
    if y >= w {
      LaterWord(y - w, z - w, w);
    } else {
      AlignUpFacts(z, w);
      AlignFacts(z, w);
    }
  }

  // --------------------------------------------------------------- read

  function OutputBits(f: Field, resultSize: nat): nat {
    if f.length > 8 * resultSize then 8 * resultSize else f.length
  }

  /** The read succeeds, the region being ready or not. */
  ghost predicate ReadGoes(f: Field, ready: bool, resultSize: nat, allowTruncation: bool) {
    f.region != null && WidthOf(f.access) != 0 &&
    (f.length <= 8 * resultSize || allowTruncation) &&
    PassesBoundsTest(f, WidthOf(f.access), f.region.ram.Length) &&
    (OutputBits(f, resultSize) == 0 ||
     (ready && WordsInside(f, WidthOf(f.access), OutputBits(f, resultSize), f.region.ram.Length)))
  }

  ghost predicate ReadSucceeds(f: Field, resultSize: nat, allowTruncation: bool)
    reads f.region
  {
    f.region != null && ReadGoes(f, f.region.ready, resultSize, allowTruncation)
  }

  /** word begins with the access word of memory at bit b. */
  ghost predicate WordAt(word: Bytes, mem: Bytes, b: nat, w: nat) {
    w / 8 <= |word| && b + w <= 8 * |mem| &&
    forall k: nat | k < w / 8 :: word[k] == mem[b / 8 + k]
  }

  lemma FetchMore(mem: Bytes, word: Bytes, f: Field, b: nat, w: nat, i: nat, bitOffset: nat, n: nat, prev: Bytes,
                  cur: Bytes)
    requires |word| == 8 && IsAccessWidth(w) && b % 8 == 0 && WordAt(word, mem, b, w)
    requires b + bitOffset == f.offset + i && bitOffset + n <= w
    requires i + n <= 8 * |prev|
    requires Fetched(mem, f.offset, i, prev)
    requires CopyBits.Copied(word, prev, cur, bitOffset, n, i)
    ensures Fetched(mem, f.offset, i + n, cur)
  {
    forall j: nat | j < 8 * |cur|
      ensures BitAt(cur, j) == (j < i + n && BitAt(mem, f.offset + j))
    {
      if i <= j < i + n {
        var k := f.offset + j - b;
        assert BitAt(cur, j) == BitAt(word, k);
        assert (b + k) / 8 == b / 8 + k / 8 && (b + k) % 8 == k % 8;
        assert word[k / 8] == mem[b / 8 + k / 8];
      }
    }
  }

  /**
   AmlFieldRead: the first bits of the field, zero-extended, in access-word
   chunks.  ReadSucceeds is exactly when it succeeds.
   */
  method FieldRead(f: Field, resultData: array<byte>, allowTruncation: bool) returns (ok: bool, resultBitCount: nat)
    requires !f.access.BufferAcc?
    requires f.region != null ==> f.region.ram != resultData
    modifies resultData
    ensures ok <==> ReadSucceeds(f, resultData.Length, allowTruncation)
    ensures ok ==> resultBitCount == OutputBits(f, resultData.Length)
    ensures ok && resultBitCount > 0 ==>
              f.offset + resultBitCount <= 8 * f.region.ram.Length &&
              Fetched(f.region.ram[..], f.offset, resultBitCount, resultData[..])
    ensures ok && resultBitCount == 0 ==> forall k: nat | k < resultData.Length :: resultData[k] == 0
  {
    resultBitCount := 0;
    if f.region == null {
      return false, 0;
    }
    var region: OperationRegion := f.region;
    var outputBitCount := f.length;
    if outputBitCount > resultData.Length * 8 {
      if !allowTruncation {
        return false, 0;
      }
      outputBitCount := resultData.Length * 8;
    }
    var width := WidthOf(f.access);
    if width == 0 {
      return false, 0;
    }
    var alignedFieldByteCount := AlignUp(f.length, width) / 8;
    if alignedFieldByteCount > region.ram.Length || f.offset / 8 > region.ram.Length - alignedFieldByteCount {
      return false, 0;
    }
    ZeroFill(resultData, resultData.Length);
    ok := ReadLoop(f, region, width, outputBitCount, resultData);
    return ok, if ok then outputBitCount else 0;
  }

  /** The chunk loop of AmlFieldRead over the zeroed result. */
  method ReadLoop(f: Field, region: OperationRegion, width: nat, outputBitCount: nat, resultData: array<byte>)
    returns (ok: bool)
    requires IsAccessWidth(width) && region.ram != resultData
    requires outputBitCount <= f.length && outputBitCount <= 8 * resultData.Length
    requires PassesBoundsTest(f, width, region.ram.Length)
    requires forall k: nat | k < resultData.Length :: resultData[k] == 0
    modifies resultData
    ensures ok <==> outputBitCount == 0 || (region.ready && WordsInside(f, width, outputBitCount, region.ram.Length))
    ensures ok && outputBitCount > 0 ==>
              f.offset + outputBitCount <= 8 * region.ram.Length &&
              Fetched(region.ram[..], f.offset, outputBitCount, resultData[..])
    ensures outputBitCount == 0 ==> resultData[..] == old(resultData[..])
  {
    if outputBitCount == 0 {
      return true;
    }
    ghost var mem := region.ram[..];
    LaterWord(0, f.length, width);
    FetchNothing(mem, f.offset, resultData[..]);
    var wordData := new byte[8];
    var i := 0;
    while i < outputBitCount
      invariant region.ram[..] == mem
      invariant ChunksTaken(f, |mem|, width, outputBitCount, i) && (i > 0 ==> region.ready)
      invariant Fetched(mem, f.offset, i, resultData[..])
    {
      var got, next := ReadCycle(f, region, width, outputBitCount, i, wordData, resultData);
      if !got {
        return false;
      }
      i := next;
    }
    return true;
  }

  /** Whole chunks have been taken up to bit i of the total first bits of the field. */
  predicate ChunksTaken(f: Field, regionLength: nat, w: nat, total: nat, i: nat)
    requires w > 0
  {
    i <= total && f.offset + i <= 8 * regionLength &&
    (0 < i < total ==> AlignDown(f.offset + i, w) == f.offset + i) &&
    (i > 0 ==> AlignUp(f.offset + i, w) <= 8 * regionLength)
  }

  function ChunkBits(f: Field, w: nat, total: nat, i: nat): nat
    requires w > 0 && i <= total
  {
    AlignFacts(f.offset + i, w);
    var room := AlignDown(f.offset + i, w) + w - (f.offset + i);
    if room < total - i then room else total - i
  }

  /** A chunk whose word lies inside the region keeps ChunksTaken. */
  lemma ChunkAdvances(f: Field, regionLength: nat, w: nat, total: nat, i: nat)
    requires w > 0 && i < total && ChunksTaken(f, regionLength, w, total, i)
    requires AlignDown(f.offset + i, w) + w <= 8 * regionLength
    ensures 1 <= ChunkBits(f, w, total, i) <= w
    ensures f.offset + i + ChunkBits(f, w, total, i) <= AlignDown(f.offset + i, w) + w
    ensures ChunksTaken(f, regionLength, w, total, i + ChunkBits(f, w, total, i))
  {
    AlignFacts(f.offset + i, w);
    ChunkFacts(f.offset + i, ChunkBits(f, w, total, i), w);
  }

  /** The word bit is in, as it lies in the region. */
  method ReadWord(region: OperationRegion, bit: nat, width: nat, wordData: array<byte>) returns (ok: bool)
    requires IsAccessWidth(width) && wordData.Length == 8 && wordData != region.ram
    modifies wordData
    ensures ok <==> region.ready && AlignDown(bit, width) + width <= 8 * region.ram.Length
    ensures ok ==> WordAt(wordData[..], region.ram[..], AlignDown(bit, width), width)
  {
    AlignByte(bit, width);
    var byteIndex := AlignDown(bit, width) / 8;
    ok := region.Read(byteIndex, width, wordData);
  }

  method WordBitOffset(bit: nat, width: nat) returns (o: nat)
    requires width > 0
    ensures o == bit - AlignDown(bit, width)
  {
    AlignMod(bit, width);
    o := bit % width;
  }

  /** One cycle of the read loop. */
  method ReadChunk(f: Field, region: OperationRegion, width: nat, total: nat, i: nat,
                   wordData: array<byte>, resultData: array<byte>)
    returns (ok: bool, wordBitCount: nat)
    requires IsAccessWidth(width) && wordData.Length == 8
    requires wordData != resultData && region.ram != wordData && region.ram != resultData
    requires i < total <= 8 * resultData.Length
    requires ChunksTaken(f, region.ram.Length, width, total, i)
    requires Fetched(region.ram[..], f.offset, i, resultData[..])
    modifies wordData, resultData
    ensures ok <==> region.ready && AlignDown(f.offset + i, width) + width <= 8 * region.ram.Length
    ensures ok ==> wordBitCount == ChunkBits(f, width, total, i)
    ensures ok ==> f.offset + i + wordBitCount <= 8 * region.ram.Length
    ensures ok ==> Fetched(region.ram[..], f.offset, i + wordBitCount, resultData[..])
  {
    ghost var mem, prev, b := region.ram[..], resultData[..], AlignDown(f.offset + i, width);
    AlignFacts(f.offset + i, width);
    AlignByte(f.offset + i, width);
    ok := ReadWord(region, f.offset + i, width, wordData);
    if !ok {
      return false, 0;
    }
    ghost var word := wordData[..];
    var wordBitOffset := WordBitOffset(f.offset + i, width);
    wordBitCount := if width - wordBitOffset < total - i then width - wordBitOffset else total - i;
    ok := CopyBits.CopyBits(wordData, wordData.Length, resultData, resultData.Length, wordBitOffset, wordBitCount, i);
    assert wordData[..] == word && region.ram[..] == mem;
    FetchMore(mem, word, f, b, width, i, wordBitOffset, wordBitCount, prev, resultData[..]);
  }

  /** One cycle and the bit it leaves off at; it fails only when some word of the read is out of reach. */
  method ReadCycle(f: Field, region: OperationRegion, width: nat, total: nat, i: nat,
                   wordData: array<byte>, resultData: array<byte>)
    returns (ok: bool, next: nat)
    requires IsAccessWidth(width) && wordData.Length == 8
    requires wordData != resultData && region.ram != wordData && region.ram != resultData
    requires i < total <= 8 * resultData.Length && total <= f.length
    requires ChunksTaken(f, region.ram.Length, width, total, i)
    requires Fetched(region.ram[..], f.offset, i, resultData[..])
    modifies wordData, resultData
    ensures ok ==> region.ready && i < next && ChunksTaken(f, region.ram.Length, width, total, next)
    ensures ok ==> Fetched(region.ram[..], f.offset, next, resultData[..])
    ensures !ok ==> !(region.ready && WordsInside(f, width, total, region.ram.Length))
  {
    var wordBitCount;
    ok, wordBitCount := ReadChunk(f, region, width, total, i, wordData, resultData);
    next := i + wordBitCount;
    if ok {
      ChunkAdvances(f, region.ram.Length, width, total, i);
    } else {
      LaterWord(f.offset + i, f.offset + total, width);
    }
  }

  lemma FetchNothing(mem: Bytes, start: nat, zeros: Bytes)
    requires start <= 8 * |mem|
    requires forall k: nat | k < |zeros| :: zeros[k] == 0
    ensures Fetched(mem, start, 0, zeros)
  {
    forall j: nat | j < 8 * |zeros|
      ensures !BitAt(zeros, j)
    {
      BitZero(j % 8);
    }
  }

  // -------------------------------------------------------------- write

  /** The write succeeds, the region being ready or not. */
  ghost predicate WriteGoes(f: Field, ready: bool) {
    f.region != null && WidthOf(f.access) != 0 &&
    PassesBoundsTest(f, WidthOf(f.access), f.region.ram.Length) &&
    (f.length == 0 || (ready && WordsInside(f, WidthOf(f.access), f.length, f.region.ram.Length)))
  }

  ghost predicate WriteSucceeds(f: Field)
    reads f.region
  {
    f.region != null && WriteGoes(f, f.region.ready)
  }

  lemma {:induction false} AlignBetween(b: nat, x: nat, w: nat)
    requires w > 0 && AlignDown(b, w) == b && b <= x < b + w
    ensures AlignDown(x, w) == b
    decreases b
  {
    if b >= w {
      AlignBetween(b - w, x - w, w);
    }
  }

  /** The bits of the word one write cycle stores at bit b of the region. */
  ghost predicate CycleWord(pre: Bytes, f: Field, w: nat, input: Bytes, allowTruncation: bool,
                            i: nat, b: nat, bitOffset: nat, n: nat, word: nat)
    requires b + w <= 8 * |pre|
  {
    forall k: nat | k < w ::
      Bit(word, k) == if bitOffset <= k < bitOffset + n then InputBit(input, i + k - bitOffset)
                      else FillBit(f.rule, allowTruncation, BitAt(pre, b + k))
  }

  /** Memory in which the access word at bit b has been replaced by word. */
  ghost predicate WordPut(cur: Bytes, new_: Bytes, b: nat, w: nat, word: nat)
    requires b % 8 == 0
  {
    |new_| == |cur| &&
    forall k: nat | k < |cur| ::
      new_[k] == if b / 8 <= k < b / 8 + w / 8 then ToLE(word, w / 8)[k - b / 8] else cur[k]
  }

  lemma WordPutBit(cur: Bytes, new_: Bytes, b: nat, w: nat, word: nat, j: nat)
    requires IsAccessWidth(w) && b % 8 == 0 && b + w <= 8 * |cur|
    requires WordPut(cur, new_, b, w, word) && j < 8 * |cur|
    ensures BitAt(new_, j) == if b <= j < b + w then Bit(word, j - b) else BitAt(cur, j)
  {
    if b <= j < b + w {
      BitToLE(word, w / 8, j - b);
      assert j / 8 - b / 8 == (j - b) / 8 && j % 8 == (j - b) % 8;
    }
  }

  /** Where bit j of the current word stands with respect to the whole field. */
  lemma WordBitRole(f: Field, w: nat, i: nat, b: nat, j: nat)
    requires w > 0 && i < f.length && b == AlignDown(f.offset + i, w)
    requires i > 0 ==> b == f.offset + i
    requires b <= j < b + w
    ensures AlignDown(f.offset, w) <= j < AlignUp(f.offset + f.length, w)
    ensures f.offset <= j < f.offset + f.length <==> f.offset + i <= j < f.offset + i + ChunkBits(f, w, f.length, i)
  {
    AlignFacts(f.offset, w);
    LaterWord(f.offset + i, f.offset + f.length, w);
  }

  lemma WriteMore(pre: Bytes, cur: Bytes, new_: Bytes, f: Field, w: nat, input: Bytes, allowTruncation: bool,
                  i: nat, b: nat, bitOffset: nat, n: nat, word: nat)
    requires IsAccessWidth(w) && i < f.length && b == AlignDown(f.offset + i, w) && b % 8 == 0
    requires b + bitOffset == f.offset + i && n == ChunkBits(f, w, f.length, i)
    requires (i > 0 ==> bitOffset == 0) && b + w <= 8 * |pre| && |cur| == |pre|
    requires WrittenBelow(pre, cur, f, w, input, allowTruncation, b)
    requires CycleWord(cur, f, w, input, allowTruncation, i, b, bitOffset, n, word)
    requires WordPut(cur, new_, b, w, word)
    ensures WrittenBelow(pre, new_, f, w, input, allowTruncation, b + w)
  {
    assert Open(WRITTEN, 0);
    forall j: nat | j < 8 * |pre|
      ensures BitAt(new_, j) == if j < b + w then WrittenBit(pre, f, w, input, allowTruncation, j) else BitAt(pre, j)
    {
      WordPutBit(cur, new_, b, w, word, j);
      assert BitAt(cur, j) == if j < b then WrittenBit(pre, f, w, input, allowTruncation, j) else BitAt(pre, j);
      if b <= j < b + w {
        WordBitRole(f, w, i, b, j);
        CycleBit(cur, f, w, input, allowTruncation, i, b, bitOffset, n, word, j);
      }
    }
  }

  /** The cycle's word, bit by bit, in the region's numbering. */
  lemma CycleBit(cur: Bytes, f: Field, w: nat, input: Bytes, allowTruncation: bool,
                 i: nat, b: nat, bitOffset: nat, n: nat, word: nat, j: nat)
    requires b + w <= 8 * |cur| && b <= j < b + w && b + bitOffset == f.offset + i
    requires CycleWord(cur, f, w, input, allowTruncation, i, b, bitOffset, n, word)
    ensures Bit(word, j - b) == if f.offset + i <= j < f.offset + i + n then InputBit(input, j - f.offset)
                                else FillBit(f.rule, allowTruncation, BitAt(cur, j))
  {
  }

  lemma WrittenWhole(pre: Bytes, post: Bytes, f: Field, w: nat, input: Bytes, allowTruncation: bool)
    requires IsAccessWidth(w) && f.length > 0
    requires WrittenBelow(pre, post, f, w, input, allowTruncation, AlignUp(f.offset + f.length, w))
    ensures Written(pre, post, f, w, input, allowTruncation)
  {
    assert Open(WRITTEN, 0);
    forall j: nat | j < 8 * |pre|
      ensures BitAt(post, j) == WrittenBit(pre, f, w, input, allowTruncation, j)
    {
      if j >= AlignUp(f.offset + f.length, w) {
        PastTheField(pre, f, w, input, allowTruncation, j);
      }
    }
  }

  lemma PastTheField(pre: Bytes, f: Field, w: nat, input: Bytes, allowTruncation: bool, j: nat)
    requires IsAccessWidth(w) && j < 8 * |pre| && j >= AlignUp(f.offset + f.length, w)
    ensures WrittenBit(pre, f, w, input, allowTruncation, j) == BitAt(pre, j)
  {
    AlignUpFacts(f.offset + f.length, w);
    AlignFacts(f.offset + f.length, w);
  }

  lemma WrittenNothing(pre: Bytes, f: Field, w: nat, input: Bytes, allowTruncation: bool)
    requires IsAccessWidth(w)
    ensures f.length > 0 ==> WrittenBelow(pre, pre, f, w, input, allowTruncation, AlignDown(f.offset, w))
    ensures f.length == 0 ==> Written(pre, pre, f, w, input, allowTruncation)
  {
    AlignFacts(f.offset, w);
  }

  /** The bits of a word outside the cycle's own bits, before merging. */
  ghost predicate BackgroundWord(mem: Bytes, f: Field, w: nat, allowTruncation: bool, b: nat, bitOffset: nat, n: nat,
                                 word: nat)
    requires b + w <= 8 * |mem|
  {
    forall k: nat | k < w && !(bitOffset <= k < bitOffset + n) ::
      Bit(word, k) == FillBit(f.rule, allowTruncation, BitAt(mem, b + k))
  }

  /** The zero-extended input of one cycle. */
  ghost predicate InputWord(input: Bytes, i: nat, n: nat, word: nat) {
    forall k: nat | k < n :: Bit(word, k) == InputBit(input, i + k)
  }

  lemma MergedCycle(mem: Bytes, f: Field, w: nat, input: Bytes, allowTruncation: bool,
                    i: nat, b: nat, bitOffset: nat, n: nat, background: nat, inputWord: nat)
    requires IsAccessWidth(w) && b + w <= 8 * |mem| && 1 <= n && bitOffset + n <= w
    requires BackgroundWord(mem, f, w, allowTruncation, b, bitOffset, n, background)
    requires InputWord(input, i, n, inputWord)
    ensures CycleWord(mem, f, w, input, allowTruncation, i, b, bitOffset, n,
                      Merge(background, WordMask(n, bitOffset, w), inputWord, bitOffset))
  {
    forall k: nat | k < w
      ensures Bit(Merge(background, WordMask(n, bitOffset, w), inputWord, bitOffset), k)
           == if bitOffset <= k < bitOffset + n then InputBit(input, i + k - bitOffset)
              else FillBit(f.rule, allowTruncation, BitAt(mem, b + k))
    {
      BitMerge(background, WordMask(n, bitOffset, w), inputWord, bitOffset, k);
      BitWordMask(n, bitOffset, w, k);
      if bitOffset <= k < bitOffset + n {
        assert Bit(inputWord, k - bitOffset) == InputBit(input, i + (k - bitOffset));
      }
    }
  }

  lemma ReadBackground(mem: Bytes, word: Bytes, f: Field, w: nat, b: nat, bitOffset: nat, n: nat)
    requires IsAccessWidth(w) && |word| == w / 8 && b % 8 == 0 && WordAt(word, mem, b, w)
    requires f.rule.Preserve?
    ensures BackgroundWord(mem, f, w, false, b, bitOffset, n, FromLE(word))
  {
    forall k: nat | k < w
      ensures Bit(FromLE(word), k) == BitAt(mem, b + k)
    {
      BitFromLE(word, k);
      assert (b + k) / 8 == b / 8 + k / 8 && (b + k) % 8 == k % 8;
      assert word[k / 8] == mem[b / 8 + k / 8];
    }
  }

  lemma ConstantBackground(mem: Bytes, f: Field, w: nat, allowTruncation: bool, b: nat, bitOffset: nat, n: nat,
                           ones: nat)
    requires IsAccessWidth(w) && b + w <= 8 * |mem|
    requires forall k: nat | k < 64 :: Bit(ones, k)
    ensures f.rule.WriteAsOnes? ==> BackgroundWord(mem, f, w, allowTruncation, b, bitOffset, n, ones)
    ensures !f.rule.WriteAsOnes? && (f.rule.Preserve? ==> allowTruncation || (bitOffset == 0 && n == w))
        ==> BackgroundWord(mem, f, w, allowTruncation, b, bitOffset, n, 0)
  {
    forall k: nat | k < w
      ensures !Bit(0, k)
    {
      BitZero(k);
    }
  }

  /** ~0 in a w-bit word. */
  function AllOnes(w: nat): (x: nat)
    ensures x < Pow2(w)
    ensures forall k: nat | k < w :: Bit(x, k)
  {
    AllOnesBits(w);
    Not(0, w)
  }

  lemma AllOnesBits(w: nat)
    ensures forall k: nat | k < w :: Bit(Not(0, w), k)
  {
    forall k: nat | k < w
      ensures Bit(Not(0, w), k)
    {
      BitNot(0, w, k);
      BitZero(k);
    }
  }

  /**
   Set up the word bits that do not belong to the cycle: the region's own bits
   when they must be preserved and the cycle does not cover the whole word.
   b is the word's first bit in the region.
   */
  method Background(f: Field, region: OperationRegion, width: nat, i: nat, b: nat, wordBitOffset: nat,
                    wordBitCount: nat,
                    allowTruncation: bool)
    returns (ok: bool, wordData: nat)
    requires IsAccessWidth(width) && i < f.length && b % 8 == 0 && b + wordBitOffset == f.offset + i
    requires wordBitCount == if f.length - i < width - wordBitOffset then f.length - i else width - wordBitOffset
    ensures ok && b + width <= 8 * region.ram.Length ==>
              BackgroundWord(region.ram[..], f, width, allowTruncation, b, wordBitOffset, wordBitCount, wordData)
    ensures !ok ==> !region.ready || b + width > 8 * region.ram.Length
  {
    if b + width <= 8 * region.ram.Length {
      ConstantBackground(region.ram[..], f, width, allowTruncation, b, wordBitOffset, wordBitCount, AllOnes(64));
    }
    match f.rule
    case Preserve =>
      if !allowTruncation && (wordBitOffset != 0 || f.length - i < width) {
        ok, wordData := ReadBack(f, region, width, b, wordBitOffset, wordBitCount);
        return;
      }
      return true, 0;
    case WriteAsOnes =>
      return true, AllOnes(64);
    case _ =>
      return true, 0;
  }

  /** The read of a read-modify-write cycle. */
  method ReadBack(f: Field, region: OperationRegion, width: nat, b: nat, wordBitOffset: nat, wordBitCount: nat)
    returns (ok: bool, wordData: nat)
    requires IsAccessWidth(width) && b % 8 == 0 && f.rule.Preserve?
    ensures ok <==> region.ready && b + width <= 8 * region.ram.Length
    ensures ok ==> BackgroundWord(region.ram[..], f, width, false, b, wordBitOffset, wordBitCount, wordData)
  {
    var wordBytes := new byte[width / 8];
    ok := region.Read(b / 8, width, wordBytes);
    if !ok {
      return false, 0;
    }
    wordData := FromLE(wordBytes[..]);
    assert WordAt(wordBytes[..], region.ram[..], b, width);
    ReadBackground(region.ram[..], wordBytes[..], f, width, b, wordBitOffset, wordBitCount);
  }

  /** The input bits of one cycle as a word; zero past the end of the input. */
  method FetchInput(inputData: array<byte>, i: nat, wordBitCount: nat) returns (inputWordData: nat)
    requires wordBitCount <= 64
    ensures InputWord(inputData[..], i, wordBitCount, inputWordData)
  {
    var inputBitCount := 0;
    if i < inputData.Length * 8 {
      inputBitCount := if wordBitCount < inputData.Length * 8 - i then wordBitCount else inputData.Length * 8 - i;
    }
    var wordBytes := new byte[8];
    ZeroFill(wordBytes, wordBytes.Length);
    ghost var zeros, input := wordBytes[..], inputData[..];
    ZeroBits(zeros);
    if i < inputData.Length * 8 {
      var copied := CopyBits.CopyBits(inputData, inputData.Length, wordBytes, wordBytes.Length, i, inputBitCount, 0);
    }
    inputWordData := FromLE(wordBytes[..]);
    assert inputData[..] == input;
    forall k: nat | k < wordBitCount
      ensures Bit(inputWordData, k) == InputBit(input, i + k)
    {
      BitFromLE(wordBytes[..], k);
    }
  }

  /** The word one cycle stores. */
  method ComposeWord(f: Field, region: OperationRegion, width: nat, i: nat, b: nat, wordBitOffset: nat,
                     wordBitCount: nat,
                     inputData: array<byte>, allowTruncation: bool)
    returns (ok: bool, wordData: nat)
    requires IsAccessWidth(width) && i < f.length && b % 8 == 0 && b + wordBitOffset == f.offset + i &&
             wordBitOffset < width
    requires wordBitCount == if f.length - i < width - wordBitOffset then f.length - i else width - wordBitOffset
    ensures ok && b + width <= 8 * region.ram.Length ==>
              CycleWord(region.ram[..], f, width, inputData[..], allowTruncation, i, b, wordBitOffset, wordBitCount,
                        wordData)
    ensures !ok ==> !region.ready || b + width > 8 * region.ram.Length
  {
    ok, wordData := Background(f, region, width, i, b, wordBitOffset, wordBitCount, allowTruncation);
    if !ok {
      return false, 0;
    }
    var wordMask := WordMask(wordBitCount, wordBitOffset, width);
    var inputWordData := FetchInput(inputData, i, wordBitCount);
    if b + width <= 8 * region.ram.Length {
      MergedCycle(region.ram[..], f, width, inputData[..], allowTruncation, i, b, wordBitOffset, wordBitCount,
                  wordData, inputWordData);
    }
    wordData := Merge(wordData, wordMask, inputWordData, wordBitOffset);
  }

  /** One cycle of the write loop. */
  method WriteChunk(f: Field, region: OperationRegion, width: nat, i: nat, inputData: array<byte>,
                    allowTruncation: bool,
                    ghost pre: Bytes)
    returns (ok: bool, wordBitCount: nat)
    requires IsAccessWidth(width) && i < f.length && inputData != region.ram
    requires ChunksTaken(f, region.ram.Length, width, f.length, i) && |pre| == region.ram.Length
    requires WrittenBelow(pre, region.ram[..], f, width, inputData[..], allowTruncation, AlignDown(f.offset + i, width))
    modifies region.ram
    ensures ok <==> region.ready && AlignDown(f.offset + i, width) + width <= 8 * region.ram.Length
    ensures ok ==> wordBitCount == ChunkBits(f, width, f.length, i)
    ensures ok ==> WrittenBelow(pre, region.ram[..], f, width, inputData[..], allowTruncation,
                                AlignDown(f.offset + i, width) + width)
    ensures !ok ==> region.ram[..] == old(region.ram[..])
  {
    AlignFacts(f.offset + i, width);
    AlignByte(f.offset + i, width);
    var b := AlignDown(f.offset + i, width);
    var wordBitOffset := WordBitOffset(f.offset + i, width);
    wordBitCount := if f.length - i < width - wordBitOffset then f.length - i else width - wordBitOffset;
    var wordData;
    ok, wordData := ComposeWord(f, region, width, i, b, wordBitOffset, wordBitCount, inputData, allowTruncation);
    if !ok {
      return false, 0;
    }
    ok := StoreWord(f, region, width, i, b, wordBitOffset, wordBitCount, wordData, inputData[..], allowTruncation, pre);
  }

  /** The store that ends a cycle. */
  method StoreWord(f: Field, region: OperationRegion, width: nat, ghost i: nat, b: nat, ghost wordBitOffset: nat,
                   ghost wordBitCount: nat, wordData: nat, ghost input: Bytes, ghost allowTruncation: bool,
                     ghost pre: Bytes)
    returns (ok: bool)
    requires IsAccessWidth(width) && i < f.length && b == AlignDown(f.offset + i, width) && b % 8 == 0
    requires b + wordBitOffset == f.offset + i && wordBitCount == ChunkBits(f, width, f.length, i)
    requires (i > 0 ==> wordBitOffset == 0) && |pre| == region.ram.Length
    requires WrittenBelow(pre, region.ram[..], f, width, input, allowTruncation, b)
    requires b + width <= 8 * region.ram.Length ==>
               CycleWord(region.ram[..], f, width, input, allowTruncation, i, b, wordBitOffset, wordBitCount, wordData)
    modifies region.ram
    ensures ok <==> region.ready && b + width <= 8 * region.ram.Length
    ensures ok ==> WrittenBelow(pre, region.ram[..], f, width, input, allowTruncation, b + width)
    ensures !ok ==> region.ram[..] == old(region.ram[..])
  {
    ghost var cur := region.ram[..];
    ok := PutWord(region, b, width, wordData);
    if ok {
      WriteMore(pre, cur, region.ram[..], f, width, input, allowTruncation, i, b, wordBitOffset, wordBitCount,
                wordData);
    }
  }

  method PutWord(region: OperationRegion, b: nat, width: nat, wordData: nat) returns (ok: bool)
    requires IsAccessWidth(width) && b % 8 == 0
    modifies region.ram
    ensures ok <==> region.ready && b + width <= 8 * region.ram.Length
    ensures ok ==> WordPut(old(region.ram[..]), region.ram[..], b, width, wordData)
    ensures !ok ==> region.ram[..] == old(region.ram[..])
  {
    var data := ToLE(wordData, width / 8);
    ok := region.Write(b / 8, width, data);
  }

  /** The bit position below which every word has been written once i bits are done. */
  function Boundary(f: Field, w: nat, i: nat): nat
    requires w > 0
  {
    if i < f.length then AlignDown(f.offset + i, w) else AlignUp(f.offset + f.length, w)
  }

  lemma WriteCycleDone(f: Field, regionLength: nat, w: nat, i: nat)
    requires w > 0 && i < f.length && ChunksTaken(f, regionLength, w, f.length, i)
    requires AlignDown(f.offset + i, w) + w <= 8 * regionLength
    ensures 1 <= ChunkBits(f, w, f.length, i)
    ensures ChunksTaken(f, regionLength, w, f.length, i + ChunkBits(f, w, f.length, i))
    ensures Boundary(f, w, i + ChunkBits(f, w, f.length, i)) == Boundary(f, w, i) + w
  {
    ChunkAdvances(f, regionLength, w, f.length, i);
    AlignFacts(f.offset + i, w);
    ChunkFacts(f.offset + i, ChunkBits(f, w, f.length, i), w);
  }

  /** A word that does not fit starts where the last whole word of the region ends. */
  lemma WriteCycleFailed(f: Field, regionLength: nat, w: nat, i: nat)
    requires w > 0 && i < f.length && ChunksTaken(f, regionLength, w, f.length, i)
    requires AlignDown(f.offset + i, w) + w > 8 * regionLength
    ensures AlignDown(8 * regionLength, w) == Boundary(f, w, i)
    ensures AlignUp(f.offset + f.length, w) > 8 * regionLength
  {
    AlignFacts(f.offset + i, w);
    AlignBetween(AlignDown(f.offset + i, w), 8 * regionLength, w);
    LaterWord(f.offset + i, f.offset + f.length, w);
  }

  lemma BoundsTestStart(f: Field, regionLength: nat, w: nat, total: nat)
    requires IsAccessWidth(w) && f.length > 0 && PassesBoundsTest(f, w, regionLength)
    ensures ChunksTaken(f, regionLength, w, total, 0)
  {
  }

  /** One cycle and what it leaves to do: the next bit, or the reason why there is none. */
  method WriteCycle(f: Field, region: OperationRegion, width: nat, i: nat, inputData: array<byte>,
                    allowTruncation: bool,
                    ghost pre: Bytes)
    returns (ok: bool, next: nat)
    requires IsAccessWidth(width) && i < f.length && inputData != region.ram
    requires ChunksTaken(f, region.ram.Length, width, f.length, i) && |pre| == region.ram.Length
    requires WrittenBelow(pre, region.ram[..], f, width, inputData[..], allowTruncation, Boundary(f, width, i))
    modifies region.ram
    ensures ok ==> region.ready && i < next && ChunksTaken(f, region.ram.Length, width, f.length, next)
    ensures ok ==> WrittenBelow(pre, region.ram[..], f, width, inputData[..], allowTruncation, Boundary(f, width, next))
    ensures !ok ==> region.ram[..] == old(region.ram[..])
    ensures !ok && region.ready ==> AlignDown(8 * region.ram.Length, width) == Boundary(f, width, i)
                                    && AlignUp(f.offset + f.length, width) > 8 * region.ram.Length
  {
    var wordBitCount;
    ghost var n := region.ram.Length;
    assert Boundary(f, width, i) == AlignDown(f.offset + i, width);
    ok, wordBitCount := WriteChunk(f, region, width, i, inputData, allowTruncation, pre);
    next := i + wordBitCount;
    if ok {
      assert i < next && ChunksTaken(f, n, width, f.length, next) &&
             Boundary(f, width, next) == Boundary(f, width, i) + width by {
        WriteCycleDone(f, n, width, i);
      }
    } else if region.ready {
      WriteCycleFailed(f, region.ram.Length, width, i);
    }
  }

  /** The chunk loop of AmlFieldWrite. */
  method WriteLoop(f: Field, region: OperationRegion, width: nat, inputData: array<byte>, allowTruncation: bool)
    returns (ok: bool)
    requires IsAccessWidth(width) && region.ram != inputData
    requires PassesBoundsTest(f, width, region.ram.Length)
    modifies region.ram
    ensures ok <==> f.length == 0 || (region.ready && WordsInside(f, width, f.length, region.ram.Length))
    ensures ok ==> Written(old(region.ram[..]), region.ram[..], f, width, inputData[..], allowTruncation)
    ensures !ok && !region.ready ==> region.ram[..] == old(region.ram[..])
    ensures !ok && region.ready ==>
              WrittenBelow(old(region.ram[..]), region.ram[..], f, width, inputData[..], allowTruncation,
                           AlignDown(8 * region.ram.Length, width))
  {
    ghost var pre, input, n := region.ram[..], inputData[..], region.ram.Length;
    WrittenNothing(pre, f, width, input, allowTruncation);
    if f.length == 0 {
      return true;
    }
    BoundsTestStart(f, n, width, f.length);
    var i := 0;
    while i < f.length
      invariant inputData[..] == input
      invariant ChunksTaken(f, n, width, f.length, i) && (i > 0 ==> region.ready)
      invariant i == 0 ==> region.ram[..] == pre
      invariant WrittenBelow(pre, region.ram[..], f, width, input, allowTruncation,
                             Boundary(f, width, i))
    {
      var wrote, next := WriteCycle(f, region, width, i, inputData, allowTruncation, pre);
      if !wrote {
        return false;
      }
      i := next;
    }
    WrittenWhole(pre, region.ram[..], f, width, input, allowTruncation);
    return true;
  }

  /**
   AmlFieldWrite.  On success the field's bits are the zero-extended input and
   every other bit of a touched word is what the update rule says; WriteSucceeds
   is exactly when that happens.  A field whose last word runs past the region
   fails after its earlier words have been written.
   */
  method FieldWrite(f: Field, inputData: array<byte>, allowTruncation: bool) returns (ok: bool)
    requires !f.access.BufferAcc?
    requires f.region != null ==> f.region.ram != inputData
    modifies if f.region == null then {} else {f.region.ram}
    ensures ok <==> WriteSucceeds(f)
    ensures ok ==> Written(old(Ram(f)), Ram(f), f, WidthOf(f.access), inputData[..], allowTruncation)
    ensures !ok && Started(f) ==>
            WrittenBelow(old(Ram(f)), Ram(f), f, WidthOf(f.access), inputData[..], allowTruncation,
                                               AlignDown(8 * |Ram(f)|, WidthOf(f.access)))
    ensures !ok && !Started(f) ==> Ram(f) == old(Ram(f))
  {
    if f.region == null {
      return false;
    }
    var region: OperationRegion := f.region;
    var width := WidthOf(f.access);
    if width == 0 {
      return false;
    }
    var alignedFieldByteCount := AlignUp(f.length, width) / 8;
    if alignedFieldByteCount > region.ram.Length || f.offset / 8 > region.ram.Length - alignedFieldByteCount {
      return false;
    }
    ok := WriteLoop(f, region, width, inputData, allowTruncation);
  }

  ghost function Ram(f: Field): Bytes
    reads if f.region == null then {} else {f.region.ram}
  {
    if f.region == null then [] else f.region.ram[..]
  }

  /** The write gets past its tests and can reach memory. */
  ghost predicate Started(f: Field)
    reads f.region
  {
    f.region != null && StartsIf(f, f.region.ready)
  }

  ghost predicate StartsIf(f: Field, ready: bool) {
    f.region != null && WidthOf(f.access) != 0 && ready && PassesBoundsTest(f, WidthOf(f.access), f.region.ram.Length)
  }
}
