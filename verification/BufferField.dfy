/**
 Buffer fields (src/aml_buffer_field.c): a run of bits of a buffer or string.
 */
module BufferField {
  import opened Bits
  import opened FieldBits
  import CopyBits

  const SIZE_MAX: nat := 0xFFFF_FFFF_FFFF_FFFF

  /** The referenced data: usable is false unless it is a buffer or a string. */
  datatype BufferField = BufferField(usable: bool, buffer: array?<byte>, bitIndex: nat, bitCount: nat)

  ghost predicate Readable(f: BufferField) {
    f.usable && f.buffer != null && f.bitIndex + f.bitCount <= 8 * f.buffer.Length
  }

  ghost predicate Writable(f: BufferField) {
    Readable(f) && f.buffer.Length <= SIZE_MAX / 8
  }

  /** The read passes its own tests and those of the copier, which gets the bit count before truncation. */
  ghost predicate Accepted(f: BufferField, resultSize: nat, allowTruncation: bool) {
    Readable(f) && (f.bitCount <= 8 * resultSize || allowTruncation) &&
    CopyBits.SpanGuard(f.bitIndex, f.bitCount, f.buffer.Length) && CopyBits.SpanGuard(0, f.bitCount, resultSize)
  }

  /** The field, read with truncation, ends inside the byte past the result. */
  ghost predicate Overruns(f: BufferField, resultSize: nat, allowTruncation: bool) {
    Readable(f) && allowTruncation && f.bitCount / 8 == resultSize && f.bitCount % 8 != 0
  }

  /**
   A read is accepted although its bits do not fit the result exactly if it overruns, by
   less than a byte; any longer field is refused whether or not truncation is allowed.
   */
  lemma OverrunIff(f: BufferField, resultSize: nat, allowTruncation: bool)
    ensures Accepted(f, resultSize, allowTruncation) && f.bitCount > 8 * resultSize
       <==> Overruns(f, resultSize, allowTruncation)
  {
    CopyBits.SpanGuardGap(0, f.bitCount, resultSize);
  }

  /** The first size bytes of memory are zero and then n bits are copied to its start. */
  lemma CopyToZeros(src: Bytes, pre: Bytes, post: Bytes, start: nat, n: nat, size: nat)
    requires size <= |pre| && forall k: nat | k < size :: pre[k] == 0
    requires start + n <= 8 * |src| && n <= 8 * |pre|
    requires CopyBits.Copied(src, pre, post, start, n, 0)
    ensures Fetched(src, start, OutputBits(n, size), post[..size])
  {
    ZeroBits(pre[..size]);
    forall j: nat | j < 8 * size
      ensures BitAt(post[..size], j) == (j < n && BitAt(src, start + j))
    {
      assert BitAt(post[..size], j) == BitAt(post, j);
      assert BitAt(pre[..size], j) == BitAt(pre, j);
    }
  }

  function OutputBits(bitCount: nat, resultSize: nat): nat {
    if bitCount > 8 * resultSize then 8 * resultSize else bitCount
  }

  /** What is past the result: the bits that overran it, and otherwise what was there. */
  ghost predicate PastResult(mem: Bytes, f: BufferField, resultSize: nat, pre: Bytes, post: Bytes)
    requires f.bitIndex + f.bitCount <= 8 * |mem|
  {
    |post| == |pre| &&
    forall j: nat | 8 * resultSize <= j < 8 * |pre| ::
      BitAt(post, j) == if j < f.bitCount then BitAt(mem, f.bitIndex + j) else BitAt(pre, j)
  }

  lemma CopyPast(mem: Bytes, f: BufferField, resultSize: nat, pre: Bytes, zeroed: Bytes, post: Bytes)
    requires f.bitIndex + f.bitCount <= 8 * |mem| && f.bitCount <= 8 * |zeroed|
    requires resultSize <= |pre| == |zeroed| && zeroed[resultSize..] == pre[resultSize..]
    requires CopyBits.Copied(mem, zeroed, post, f.bitIndex, f.bitCount, 0)
    ensures PastResult(mem, f, resultSize, pre, post)
  {
    forall j: nat | 8 * resultSize <= j < 8 * |pre|
      ensures BitAt(zeroed, j) == BitAt(pre, j)
    {
      assert zeroed[j / 8] == zeroed[resultSize..][j / 8 - resultSize];
    }
  }

  /**
   AmlBufferFieldRead.  resultData is memory, of which the first resultSize bytes are the
   result; a read that overruns needs one byte more, delivers a truncated value and
   writes the rest of the field past the result.
   */
  method Read(f: BufferField, resultData: array<byte>, resultSize: nat, allowTruncation: bool)
    returns (ok: bool, resultBitCount: nat)
    requires f.buffer != null ==> f.buffer != resultData
    requires resultSize <= resultData.Length &&
             (Overruns(f, resultSize, allowTruncation) ==> resultSize < resultData.Length)
    modifies resultData
    ensures ok <==> Accepted(f, resultSize, allowTruncation)
    ensures ok <==> Readable(f) && (f.bitCount <= 8 * resultSize || Overruns(f, resultSize, allowTruncation))
    ensures ok ==> resultBitCount == OutputBits(f.bitCount, resultSize)
    ensures ok ==> Fetched(f.buffer[..], f.bitIndex, resultBitCount, resultData[..resultSize])
    ensures ok ==> PastResult(f.buffer[..], f, resultSize, old(resultData[..]), resultData[..])
    ensures !ok ==> resultData[resultSize..] == old(resultData[resultSize..])
    ensures !ok && Readable(f) && allowTruncation ==> forall k: nat | k < resultSize :: resultData[k] == 0
    ensures !ok && !(Readable(f) && allowTruncation) ==> resultData[..] == old(resultData[..])
  {
    resultBitCount := 0;
    OverrunIff(f, resultSize, allowTruncation);
    if !f.usable || f.buffer == null {
      return false, 0;
    }
    if (f.bitIndex + f.bitCount + 7) / 8 > f.buffer.Length {
      return false, 0;
    }
    var outputBitCount := f.bitCount;
    if outputBitCount > resultSize * 8 {
      if !allowTruncation {
        return false, 0;
      }
      outputBitCount := resultSize * 8;
    }
    ghost var pre := resultData[..];
    ZeroFill(resultData, resultSize);
    ghost var zeroed := resultData[..];
    assert zeroed[resultSize..] == pre[resultSize..];
    ok := CopyBits.CopyBits(f.buffer, f.buffer.Length, resultData, resultSize, f.bitIndex, f.bitCount, 0);
    if !ok {
      return false, 0;
    }
    CopyToZeros(f.buffer[..], zeroed, resultData[..], f.bitIndex, f.bitCount, resultSize);
    CopyPast(f.buffer[..], f, resultSize, pre, zeroed, resultData[..]);
    assert resultData[..][..resultSize] == resultData[..resultSize];
    return true, outputBitCount;
  }

  /**
   AmlBufferFieldWrite.  A short input is refused unless truncation is allowed,
   and then the rest of the field is zeroed in chunks of 128 bits.
   */
  method Write(f: BufferField, inputData: array<byte>, allowTruncation: bool) returns (ok: bool)
    requires f.buffer != null ==> f.buffer != inputData
    modifies if f.buffer == null then {} else {f.buffer}
    ensures ok <==> Writable(f) && (f.bitCount <= 8 * inputData.Length || allowTruncation)
    ensures ok ==> Holds(f.buffer[..], f.bitIndex, f.bitCount, inputData[..])
    ensures ok ==> OthersKept(old(if f.buffer == null then [] else f.buffer[..]), f.buffer[..], f.bitIndex, f.bitCount)
    ensures !ok && f.buffer != null ==> f.buffer[..] == old(if f.buffer == null then [] else f.buffer[..])
  {
    if !f.usable || f.buffer == null {
      return false;
    }
    var buffer: array<byte> := f.buffer;
    if buffer.Length > SIZE_MAX / 8 || f.bitIndex + f.bitCount > buffer.Length * 8 {
      return false;
    }
    var inputBitCount := if f.bitCount < inputData.Length * 8 then f.bitCount else inputData.Length * 8;
    if inputBitCount != f.bitCount {
      if !allowTruncation {
        return false;
      }
    }
    ghost var pre, input := buffer[..], inputData[..];
    ok := CopyBits.CopyBits(inputData, inputData.Length, buffer, buffer.Length, 0, inputBitCount, f.bitIndex);
    if !ok {
      return false;
    }
    FirstPart(pre, buffer[..], f, input, inputBitCount);
    if inputBitCount < f.bitCount {
      var zeroBuffer := new byte[16];
      ZeroFill(zeroBuffer, zeroBuffer.Length);
      ghost var zeros := zeroBuffer[..];
      ZeroBits(zeros);
      var padBitCount := f.bitCount - inputBitCount;
      var i := 0;
      while i < padBitCount
        invariant 0 <= i <= padBitCount
        invariant zeroBuffer[..] == zeros && inputData[..] == input
        invariant Holds(buffer[..], f.bitIndex, inputBitCount + i, input)
        invariant OthersKept(pre, buffer[..], f.bitIndex, inputBitCount + i)
      {
        var padChunkSize := if padBitCount - i < 128 then padBitCount - i else 128;
        ghost var cur := buffer[..];
        var copied := CopyBits.CopyBits(zeroBuffer, zeroBuffer.Length, buffer, buffer.Length, 0, padChunkSize,
                                        f.bitIndex + inputBitCount + i);
        if !copied {
          return false;
        }
        PadPart(pre, cur, buffer[..], zeros, f, input, inputBitCount + i, padChunkSize);
        i := i + padChunkSize;
      }
    }
    return true;
  }

  lemma FirstPart(pre: Bytes, post: Bytes, f: BufferField, input: Bytes, n: nat)
    requires f.bitIndex + n <= 8 * |pre| && n <= 8 * |input|
    requires CopyBits.Copied(input, pre, post, 0, n, f.bitIndex)
    ensures Holds(post, f.bitIndex, n, input)
    ensures OthersKept(pre, post, f.bitIndex, n)
  {
  }

  lemma PadPart(pre: Bytes, cur: Bytes, post: Bytes, zeros: Bytes, f: BufferField, input: Bytes, done: nat, chunk: nat)
    requires |cur| == |pre| && 8 * |input| <= done && chunk <= 8 * |zeros|
    requires f.bitIndex + done + chunk <= 8 * |pre|
    requires forall j: nat | j < 8 * |zeros| :: !BitAt(zeros, j)
    requires Holds(cur, f.bitIndex, done, input) && OthersKept(pre, cur, f.bitIndex, done)
    requires CopyBits.Copied(zeros, cur, post, 0, chunk, f.bitIndex + done)
    ensures Holds(post, f.bitIndex, done + chunk, input)
    ensures OthersKept(pre, post, f.bitIndex, done + chunk)
  {
  }

  /** A truncating write followed by a read of the same field gives the input, cut or zero-extended. */
  method WriteThenRead(f: BufferField, inputData: array<byte>, resultData: array<byte>) returns (ok: bool)
    requires Writable(f) && f.buffer != inputData && f.buffer != resultData && resultData != inputData
    requires f.bitCount <= 8 * resultData.Length
    modifies f.buffer, resultData
    ensures ok
    ensures forall j: nat | j < 8 * resultData.Length ::
              BitAt(resultData[..], j) == (j < f.bitCount && InputBit(inputData[..], j))
  {
    ok := Write(f, inputData, true);
    ghost var mem := f.buffer[..];
    ghost var input := inputData[..];
    var n;
    ok, n := Read(f, resultData, resultData.Length, false);
    assert resultData[..resultData.Length] == resultData[..];
    StoreThenFetch(mem, f.bitIndex, f.bitCount, input, resultData[..]);
  }
}
