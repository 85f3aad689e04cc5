/**
 What the access types mean, byte by byte: AnyAcc and ByteAcc access single bytes, WordAcc
 two at a time, DWordAcc four and QWordAcc eight (src/aml_field.c:172-189, 395-412).
 */
module AccessTypes {
  import opened Bits
  import opened FieldBits
  import opened Region
  import opened RegionField
  import opened FieldEffects
  import RegionFieldTheorems
  import opened Folding

  /** Every bit of the bytes from first to end that is not the field's has the value. */
  ghost predicate FilledWith(f: Field, post: Bytes, first: nat, end: nat, value: bool) {
    forall j: nat | 8 * first <= j < 8 * end && j < 8 * |post| && !(f.offset <= j < f.offset + f.length) ::
      BitAt(post, j) == value
  }

  ghost predicate BytesKept(pre: Bytes, post: Bytes, first: nat, end: nat) {
    |post| == |pre| && forall k: nat | k < |pre| && !(first <= k < end) :: post[k] == pre[k]
  }

  ghost predicate FieldBitsAre(f: Field, post: Bytes, input: Bytes) {
    f.offset + f.length <= 8 * |post| && Holds(post, f.offset, f.length, input)
  }

  lemma DownIsMultiple(x: nat, n: nat)
    requires n == 1 || n == 2 || n == 4 || n == 8
    ensures AlignDown(x, 8 * n) == 8 * (n * (x / (8 * n)))
  {
    AlignMod(x, 8 * n);
    if n == 1 {
    } else if n == 2 {
    } else if n == 4 {
    } else {
    }
  }

  /** The bytes of the access words of n bytes that the field touches. */
  lemma TouchedBytes(f: Field, n: nat)
    requires n == 1 || n == 2 || n == 4 || n == 8
    ensures AlignDown(f.offset, 8 * n) == 8 * (n * (f.offset / (8 * n)))
    ensures AlignUp(f.offset + f.length, 8 * n) == 8 * (n * ((f.offset + f.length + (8 * n - 1)) / (8 * n)))
  {
    DownIsMultiple(f.offset, n);
    DownIsMultiple(f.offset + f.length + (8 * n - 1), n);
  }

  lemma BitsKeptBytesKept(pre: Bytes, post: Bytes, first: nat, end: nat)
    requires |post| == |pre|
    requires forall j: nat | j < 8 * |pre| && !(8 * first <= j < 8 * end) :: BitAt(post, j) == BitAt(pre, j)
    ensures BytesKept(pre, post, first, end)
  {
    forall k: nat | k < |pre| && !(first <= k < end)
      ensures post[k] == pre[k]
    {
      forall i: nat | i < 8
        ensures Bit(post[k], i) == Bit(pre[k], i)
      {
        BitOfByte(post, k, i);
        BitOfByte(pre, k, i);
        assert BitAt(post, 8 * k + i) == BitAt(pre, 8 * k + i);
      }
      BitsDetermineWord(post[k], pre[k], 8);
    }
  }

  lemma BitOfByte(s: Bytes, k: nat, i: nat)
    requires k < |s| && i < 8
    ensures BitAt(s, 8 * k + i) == Bit(s[k], i) && s[k] < Pow2(8)
  {
    Pow2Of8();
  }

  /** The words a field touches, by bits. */
  ghost predicate TouchedBits(f: Field, pre: Bytes, post: Bytes, w: nat, value: bool)
    requires IsAccessWidth(w)
  {
    |post| == |pre| &&
    forall j: nat | j < 8 * |pre| && !(f.offset <= j < f.offset + f.length) ::
      if AlignDown(f.offset, w) <= j < AlignUp(f.offset + f.length, w) then f.rule.Preserve? || BitAt(post, j) == value
      else BitAt(post, j) == BitAt(pre, j)
  }

  lemma StoredTouches(f: Field, pre: Bytes, post: Bytes, input: Bytes, allowTruncation: bool)
    requires Stored(f, pre, post, input, allowTruncation) && f.length > 0
    ensures TouchedBits(f, pre, post, WidthOf(f.access), f.rule.WriteAsOnes?)
  {
    assert Open(STORED, 0);
  }

  lemma FieldInside(f: Field, w: nat)
    requires IsAccessWidth(w)
    ensures AlignDown(f.offset, w) <= f.offset && f.offset + f.length <= AlignUp(f.offset + f.length, w)
  {
    AlignFacts(f.offset, w);
    AlignFacts(f.offset + f.length, w);
    AlignUpFacts(f.offset + f.length, w);
  }

  /** What a write with access words of n bytes does. */
  lemma WordsTouched(f: Field, pre: Bytes, post: Bytes, input: Bytes, allowTruncation: bool, n: nat)
    requires (n == 1 || n == 2 || n == 4 || n == 8) && WidthOf(f.access) == 8 * n && f.length > 0
    requires Stored(f, pre, post, input, allowTruncation)
    ensures var first, end := n * (f.offset / (8 * n)), n * ((f.offset + f.length + (8 * n - 1)) / (8 * n));
            FieldBitsAre(f, post, input) && BytesKept(pre, post, first, end) &&
            (f.rule.WriteAsOnes? ==> FilledWith(f, post, first, end, true)) &&
            (f.rule.WriteAsZeros? || f.rule.ReservedRule? ==> FilledWith(f, post, first, end, false))
  {
    var first, end := n * (f.offset / (8 * n)), n * ((f.offset + f.length + (8 * n - 1)) / (8 * n));
    StoredTouches(f, pre, post, input, allowTruncation);
    StoredHolds(f, pre, post, input, allowTruncation);
    TouchedBytes(f, n);
    FieldInside(f, 8 * n);
    TouchedFilled(f, pre, post, 8 * n, f.rule.WriteAsOnes?, first, end);
  }

  lemma TouchedFilled(f: Field, pre: Bytes, post: Bytes, w: nat, value: bool, first: nat, end: nat)
    requires IsAccessWidth(w) && TouchedBits(f, pre, post, w, value)
    requires AlignDown(f.offset, w) == 8 * first && AlignUp(f.offset + f.length, w) == 8 * end
    requires 8 * first <= f.offset && f.offset + f.length <= 8 * end
    ensures BytesKept(pre, post, first, end)
    ensures !f.rule.Preserve? ==> FilledWith(f, post, first, end, value)
  {
    BitsKeptBytesKept(pre, post, first, end);
  }

  /** A field on a word boundary is within the region exactly if its whole words are. */
  lemma AlignedReach(f: Field, n: nat, regionLength: nat)
    requires (n == 1 || n == 2 || n == 4 || n == 8) && f.length > 0 && f.offset % (8 * n) == 0
    ensures WordsInside(f, 8 * n, f.length, regionLength) <==>
            n * ((f.offset + f.length + (8 * n - 1)) / (8 * n)) <= regionLength
    ensures PassesBoundsTest(f, 8 * n, regionLength) <==> WordsInside(f, 8 * n, f.length, regionLength)
  {
    TouchedBytes(f, n);
    AlignMod(f.offset, 8 * n);
    RegionFieldTheorems.BoundsTestExactWhenAligned(f, 8 * n, regionLength);
  }

  /** The region is there, ready, and has that many bytes. */
  ghost predicate RegionHas(f: Field, bytes: nat)
    reads f.region
  {
    f.region != null && f.region.ready && bytes <= f.region.ram.Length
  }

  /** Byte access writes single bytes. */
  lemma ByteWrites(f: Field, pre: Bytes, post: Bytes, input: Bytes, allowTruncation: bool)
    requires (f.access.AnyAcc? || f.access.ByteAcc?) && f.length > 0 && Stored(f, pre, post, input, allowTruncation)
    ensures var first, end := f.offset / 8, (f.offset + f.length + 7) / 8;
            FieldBitsAre(f, post, input) && BytesKept(pre, post, first, end) &&
            (f.rule.WriteAsOnes? ==> FilledWith(f, post, first, end, true)) &&
            (f.rule.WriteAsZeros? || f.rule.ReservedRule? ==> FilledWith(f, post, first, end, false))
  {
    WordsTouched(f, pre, post, input, allowTruncation, 1);
  }

  /** On a boundary of 8 bits such a field is written, and read in full, exactly if the region has its bytes. */
  lemma ByteReaches(f: Field, resultSize: nat)
    requires (f.access.AnyAcc? || f.access.ByteAcc?) && f.length > 0 && f.offset % 8 == 0
    ensures WriteSucceeds(f) <==> RegionHas(f, (f.offset + f.length + 7) / 8)
    ensures f.length <= 8 * resultSize ==>
              (ReadSucceeds(f, resultSize, false) <==> RegionHas(f, (f.offset + f.length + 7) / 8))
  {
    if f.region != null {
      AlignedReach(f, 1, f.region.ram.Length);
    }
  }

  /** Word access writes pairs of bytes. */
  lemma WordWrites(f: Field, pre: Bytes, post: Bytes, input: Bytes, allowTruncation: bool)
    requires f.access.WordAcc? && f.length > 0 && Stored(f, pre, post, input, allowTruncation)
    ensures var first, end := 2 * (f.offset / 16), 2 * ((f.offset + f.length + 15) / 16);
            FieldBitsAre(f, post, input) && BytesKept(pre, post, first, end) &&
            (f.rule.WriteAsOnes? ==> FilledWith(f, post, first, end, true)) &&
            (f.rule.WriteAsZeros? || f.rule.ReservedRule? ==> FilledWith(f, post, first, end, false))
  {
    WordsTouched(f, pre, post, input, allowTruncation, 2);
  }

  /** On a boundary of 16 bits such a field is written, and read in full, exactly if the region has its bytes. */
  lemma WordReaches(f: Field, resultSize: nat)
    requires f.access.WordAcc? && f.length > 0 && f.offset % 16 == 0
    ensures WriteSucceeds(f) <==> RegionHas(f, 2 * ((f.offset + f.length + 15) / 16))
    ensures f.length <= 8 * resultSize ==>
              (ReadSucceeds(f, resultSize, false) <==> RegionHas(f, 2 * ((f.offset + f.length + 15) / 16)))
  {
    if f.region != null {
      AlignedReach(f, 2, f.region.ram.Length);
    }
  }

  /** DWord access writes four bytes at a time. */
  lemma DWordWrites(f: Field, pre: Bytes, post: Bytes, input: Bytes, allowTruncation: bool)
    requires f.access.DWordAcc? && f.length > 0 && Stored(f, pre, post, input, allowTruncation)
    ensures var first, end := 4 * (f.offset / 32), 4 * ((f.offset + f.length + 31) / 32);
            FieldBitsAre(f, post, input) && BytesKept(pre, post, first, end) &&
            (f.rule.WriteAsOnes? ==> FilledWith(f, post, first, end, true)) &&
            (f.rule.WriteAsZeros? || f.rule.ReservedRule? ==> FilledWith(f, post, first, end, false))
  {
    WordsTouched(f, pre, post, input, allowTruncation, 4);
  }

  /** On a boundary of 32 bits such a field is written, and read in full, exactly if the region has its bytes. */
  lemma DWordReaches(f: Field, resultSize: nat)
    requires f.access.DWordAcc? && f.length > 0 && f.offset % 32 == 0
    ensures WriteSucceeds(f) <==> RegionHas(f, 4 * ((f.offset + f.length + 31) / 32))
    ensures f.length <= 8 * resultSize ==>
              (ReadSucceeds(f, resultSize, false) <==> RegionHas(f, 4 * ((f.offset + f.length + 31) / 32)))
  {
    if f.region != null {
      AlignedReach(f, 4, f.region.ram.Length);
    }
  }

  /** QWord access writes eight bytes at a time. */
  lemma QWordWrites(f: Field, pre: Bytes, post: Bytes, input: Bytes, allowTruncation: bool)
    requires f.access.QWordAcc? && f.length > 0 && Stored(f, pre, post, input, allowTruncation)
    ensures var first, end := 8 * (f.offset / 64), 8 * ((f.offset + f.length + 63) / 64);
            FieldBitsAre(f, post, input) && BytesKept(pre, post, first, end) &&
            (f.rule.WriteAsOnes? ==> FilledWith(f, post, first, end, true)) &&
            (f.rule.WriteAsZeros? || f.rule.ReservedRule? ==> FilledWith(f, post, first, end, false))
  {
    WordsTouched(f, pre, post, input, allowTruncation, 8);
  }

  /** On a boundary of 64 bits such a field is written, and read in full, exactly if the region has its bytes. */
  lemma QWordReaches(f: Field, resultSize: nat)
    requires f.access.QWordAcc? && f.length > 0 && f.offset % 64 == 0
    ensures WriteSucceeds(f) <==> RegionHas(f, 8 * ((f.offset + f.length + 63) / 64))
    ensures f.length <= 8 * resultSize ==>
              (ReadSucceeds(f, resultSize, false) <==> RegionHas(f, 8 * ((f.offset + f.length + 63) / 64)))
  {
    if f.region != null {
      AlignedReach(f, 8, f.region.ram.Length);
    }
  }

  /** The other access types are refused. */
  lemma OthersRefused(f: Field, resultSize: nat, allowTruncation: bool)
    requires f.access.BufferAcc? || f.access.ReservedAcc?
    ensures !WriteSucceeds(f) && !ReadSucceeds(f, resultSize, allowTruncation)
  {
  }
}
