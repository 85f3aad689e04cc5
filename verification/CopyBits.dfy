/**
 The bit copier every field access rests on (src/aml_base.c).

 It copies whole bytes while source and destination are both byte-aligned and
 single bits otherwise.  The result is stated bit by bit, and is the one that a
 plain bit-by-bit loop computes.
 */
module CopyBits {
  import opened Bits

  /** new is old with bits [o, o + n) replaced by bits [i, i + n) of src. */
  ghost predicate Copied(src: Bytes, old_: Bytes, new_: Bytes, i: nat, n: nat, o: nat)
    requires i + n <= 8 * |src| && o + n <= 8 * |old_|
  {
    |new_| == |old_| &&
    forall j: nat | j < 8 * |old_| ::
      BitAt(new_, j) == if o <= j < o + n then BitAt(src, i + (j - o)) else BitAt(old_, j)
  }

  function PutBit(s: Bytes, j: nat, v: bool): (t: Bytes)
    requires j < 8 * |s|
    ensures |t| == |s|
  {
    var b := s[j / 8];
    s[j / 8 := PutBit8(b, j % 8, if v then 1 else 0)]
  }

  function PutBit8(b: byte, k: nat, v: nat): byte
    requires k < 8 && v < 2
  {
    PutBit8InRange(b, k, v);
    Or(And(b, Not(Shl(1, k, 8), 8)), Shl(v, k, 8))
  }

  lemma PutBit8InRange(b: byte, k: nat, v: nat)
    requires k < 8 && v < 2
    ensures Shl(1, k, 8) < Pow2(8) == 256
    ensures Or(And(b, Not(Shl(1, k, 8), 8)), Shl(v, k, 8)) < 256
  {
    Pow2Of8();
    ShlBound(1, k, 8);
    ShlBound(v, k, 8);
    OrBound(And(b, Not(Shl(1, k, 8), 8)), Shl(v, k, 8), 8);
  }

  lemma PutBit8Bit(b: byte, k: nat, v: nat, j: nat)
    requires k < 8 && v < 2 && j < 8
    ensures Bit(PutBit8(b, k, v), j) == if j == k then v == 1 else Bit(b, j)
  {
    PutBit8InRange(b, k, v);
    BitOr(And(b, Not(Shl(1, k, 8), 8)), Shl(v, k, 8), j);
    BitAnd(b, Not(Shl(1, k, 8), 8), j);
    BitNot(Shl(1, k, 8), 8, j);
    SingleBit(1, k, j);
    SingleBit(v, k, j);
  }

  lemma SingleBit(v: nat, k: nat, j: nat)
    requires k < 8 && v < 2 && j < 8
    ensures Bit(Shl(v, k, 8), j) == (j == k && v == 1)
  {
    BitShl(v, k, 8, j);
    if k < j {
      BitZero(j - k - 1);
    }
  }

  lemma PutBitBit(s: Bytes, j: nat, v: bool, k: nat)
    requires j < 8 * |s| && k < 8 * |s|
    ensures BitAt(PutBit(s, j, v), k) == if k == j then v else BitAt(s, k)
  {
    if k / 8 == j / 8 {
      PutBit8Bit(s[j / 8], j % 8, if v then 1 else 0, k % 8);
    }
  }

  /** The reference: one bit at a time, in order. */
  function BitByBit(src: Bytes, dst: Bytes, i: nat, n: nat, o: nat): (r: Bytes)
    requires i + n <= 8 * |src| && o + n <= 8 * |dst|
    ensures |r| == |dst|
    decreases n
  {
    if n == 0 then dst
    else PutBit(BitByBit(src, dst, i, n - 1, o), o + n - 1, BitAt(src, i + n - 1))
  }

  lemma {:induction false} BitByBitCopies(src: Bytes, dst: Bytes, i: nat, n: nat, o: nat)
    requires i + n <= 8 * |src| && o + n <= 8 * |dst|
    ensures Copied(src, dst, BitByBit(src, dst, i, n, o), i, n, o)
    decreases n
  {
    if n > 0 {
      BitByBitCopies(src, dst, i, n - 1, o);
      CopiedNext(src, dst, BitByBit(src, dst, i, n - 1, o), BitByBit(src, dst, i, n, o), i, n, o);
    }
  }

  /** The copied contents are fixed by the bits: any two results agree. */
  lemma CopiedUnique(src: Bytes, dst: Bytes, r: Bytes, i: nat, n: nat, o: nat)
    requires i + n <= 8 * |src| && o + n <= 8 * |dst|
    requires Copied(src, dst, r, i, n, o)
    ensures r == BitByBit(src, dst, i, n, o)
  {
    BitByBitCopies(src, dst, i, n, o);
    BitsDetermineBytes(r, BitByBit(src, dst, i, n, o));
  }

  lemma CopyOneMore(src: Bytes, dst: Bytes, r: Bytes, i: nat, n: nat, o: nat)
    requires i + n < 8 * |src| && o + n < 8 * |dst|
    requires Copied(src, dst, r, i, n, o)
    ensures Copied(src, dst, PutBit(r, o + n, BitAt(src, i + n)), i, n + 1, o)
  {
    var t := PutBit(r, o + n, BitAt(src, i + n));
    forall j: nat | j < 8 * |dst|
      ensures BitAt(t, j) == if o <= j < o + n + 1 then BitAt(src, i + (j - o)) else BitAt(dst, j)
    {
      PutBitBit(r, o + n, BitAt(src, i + n), j);
    }
  }

  lemma CopiedNext(src: Bytes, dst: Bytes, r: Bytes, t: Bytes, i: nat, n: nat, o: nat)
    requires 0 < n && i + n <= 8 * |src| && o + n <= 8 * |dst|
    requires Copied(src, dst, r, i, n - 1, o)
    requires t == PutBit(r, o + n - 1, BitAt(src, i + n - 1))
    ensures Copied(src, dst, t, i, n, o)
  {
    CopyOneMore(src, dst, r, i, n - 1, o);
  }

  lemma CopyByteMore(src: Bytes, dst: Bytes, r: Bytes, i: nat, n: nat, o: nat)
    requires i + n + 8 <= 8 * |src| && o + n + 8 <= 8 * |dst|
    requires (i + n) % 8 == 0 && (o + n) % 8 == 0
    requires Copied(src, dst, r, i, n, o)
    ensures Copied(src, dst, r[(o + n) / 8 := src[(i + n) / 8]], i, n + 8, o)
  {
    var t := r[(o + n) / 8 := src[(i + n) / 8]];
    forall j: nat | j < 8 * |dst|
      ensures BitAt(t, j) == if o <= j < o + n + 8 then BitAt(src, i + (j - o)) else BitAt(dst, j)
    {
      if o + n <= j < o + n + 8 {
        ByteIndex(i + n, j - (o + n));
        ByteIndex(o + n, j - (o + n));
      } else {
        assert j / 8 != (o + n) / 8;
        assert BitAt(t, j) == BitAt(r, j);
      }
    }
  }

  lemma ByteIndex(base: nat, d: nat)
    requires base % 8 == 0 && d < 8
    ensures (base + d) / 8 == base / 8 && (base + d) % 8 == d
  {
  }

  /** The bounds test the code makes: a byte count rounded down. */
  predicate SpanGuard(bitIndex: nat, bitCount: nat, size: nat) {
    (bitIndex + bitCount) / 8 <= size
  }

  /**
   The rounded-down test admits a span that leaves the buffer exactly when the
   span ends inside the byte just past the end.
   */
  lemma SpanGuardGap(bitIndex: nat, bitCount: nat, size: nat)
    ensures SpanGuard(bitIndex, bitCount, size) && bitIndex + bitCount > 8 * size
       <==> (bitIndex + bitCount) / 8 == size && (bitIndex + bitCount) % 8 != 0
  {
  }

  /**
   AmlCopyBits.  The arrays are memory, of which the first inputSize and resultSize bytes are
   the buffers; a span ending inside the byte past either (see SpanGuardGap) is copied as
   far as it goes, and any longer span is refused and changes nothing.
   */
  method CopyBits(input: array<byte>, inputSize: nat, result: array<byte>, resultSize: nat,
                  inputBitIndex: nat, inputBitCount: nat, outputBitIndex: nat)
    returns (ok: bool)
    requires input != result
    requires SpanGuard(inputBitIndex, inputBitCount, inputSize) &&
             SpanGuard(outputBitIndex, inputBitCount, resultSize) ==>
               inputBitIndex + inputBitCount <= 8 * input.Length && outputBitIndex + inputBitCount <= 8 * result.Length
    modifies result
    ensures ok <==> (SpanGuard(inputBitIndex, inputBitCount, inputSize) &&
                     SpanGuard(outputBitIndex, inputBitCount, resultSize))
    ensures inputSize == input.Length && resultSize == result.Length ==>
              (ok <==> (inputBitIndex + inputBitCount <= 8 * inputSize &&
                        outputBitIndex + inputBitCount <= 8 * resultSize))
    ensures ok ==> (inputBitIndex + inputBitCount <= 8 * input.Length &&
                    outputBitIndex + inputBitCount <= 8 * result.Length)
    ensures ok ==> Copied(input[..], old(result[..]), result[..], inputBitIndex, inputBitCount, outputBitIndex)
    ensures !ok ==> result[..] == old(result[..])
  {
    if (inputBitIndex + inputBitCount) / 8 > inputSize {
      return false;
    }
    if (outputBitIndex + inputBitCount) / 8 > resultSize {
      return false;
    }
    ghost var src, dst := input[..], result[..];
    var bitOffset := 0;
    while bitOffset < inputBitCount
      invariant bitOffset <= inputBitCount
      invariant input[..] == src
      invariant Copied(src, dst, result[..], inputBitIndex, bitOffset, outputBitIndex)
    {
      var outByteIndex := (outputBitIndex + bitOffset) / 8;
      var outByteLocalBitIndex := (outputBitIndex + bitOffset) % 8;
      var remainingBitCount := inputBitCount - bitOffset;
      var inputByteIndex := (inputBitIndex + bitOffset) / 8;
      var inputByteLocalBitIndex := (inputBitIndex + bitOffset) % 8;
      ghost var r := result[..];
      BothZero(outByteLocalBitIndex, inputByteLocalBitIndex);

      if Or(outByteLocalBitIndex, inputByteLocalBitIndex) == 0 && remainingBitCount >= 8 {
        CopyByteMore(src, dst, r, inputBitIndex, bitOffset, outputBitIndex);
        result[outByteIndex] := input[inputByteIndex];
        assert result[..] == r[outByteIndex := src[inputByteIndex]];
        bitOffset := bitOffset + 8;
        continue;
      }

      var inputBitValue := And(Shr(input[inputByteIndex], inputByteLocalBitIndex), 1);
      LowBitIsBit(input[inputByteIndex], inputByteLocalBitIndex);
      CopyOneMore(src, dst, r, inputBitIndex, bitOffset, outputBitIndex);
      PutBit8InRange(result[outByteIndex], outByteLocalBitIndex, inputBitValue);
      result[outByteIndex] := And(result[outByteIndex], Not(Shl(1, outByteLocalBitIndex, 8), 8));
      result[outByteIndex] := Or(result[outByteIndex], Shl(inputBitValue, outByteLocalBitIndex, 8));
      assert result[..] == PutBit(r, outputBitIndex + bitOffset, BitAt(src, inputBitIndex + bitOffset));
      bitOffset := bitOffset + 1;
    }
    return true;
  }

  lemma BothZero(a: nat, b: nat)
    ensures Or(a, b) == 0 <==> a == 0 && b == 0
  {
  }

  lemma LowBitIsBit(b: nat, k: nat)
    ensures And(Shr(b, k), 1) == if Bit(b, k) then 1 else 0
  {
  }
}
