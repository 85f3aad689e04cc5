/**
 What the region field contracts add up to: round trips, independence of the
 access width, isolation of other fields, and the limits of the bounds test.
 */
module RegionFieldTheorems {
  import opened Bits
  import opened FieldBits
  import opened Region
  import opened RegionField

  /** A successful write stores the zero-extended input, whatever the width and rule. */
  lemma WrittenHolds(pre: Bytes, post: Bytes, f: Field, w: nat, input: Bytes, allowTruncation: bool)
    requires IsAccessWidth(w) && f.offset + f.length <= 8 * |pre|
    requires Written(pre, post, f, w, input, allowTruncation)
    ensures Holds(post, f.offset, f.length, input)
  {
  }

  /** Reading a field just written, at any width and result size, gives the input cut to both. */
  lemma ReadAfterWrite(pre: Bytes, post: Bytes, f: Field, w: nat, input: Bytes, allowTruncation: bool, outBits: nat,
                       result: Bytes)
    requires IsAccessWidth(w) && outBits <= f.length && f.offset + f.length <= 8 * |pre|
    requires Written(pre, post, f, w, input, allowTruncation)
    requires Fetched(post, f.offset, outBits, result)
    ensures forall j: nat | j < 8 * |result| :: BitAt(result, j) == (j < outBits && InputBit(input, j))
  {
  }

  /** A 64-bit integer stored in a field and read back as a 64-bit integer is reduced modulo 2^length. */
  lemma IntegerThroughField(pre: Bytes, post: Bytes, f: Field, w: nat, v: nat, allowTruncation: bool, result: Bytes)
    requires IsAccessWidth(w) && v < Pow2(64) && |result| == 8 && f.offset + f.length <= 8 * |pre|
    requires Written(pre, post, f, w, ToLE(v, 8), allowTruncation)
    requires Fetched(post, f.offset, OutputBits(f, 8), result)
    ensures FromLE(result) == v % Pow2(f.length)
  {
    WrittenHolds(pre, post, f, w, ToLE(v, 8), allowTruncation);
    IntegerRoundTrip(post, f.offset, OutputBits(f, 8), v, result);
    if f.length > 64 {
      LowIsMod(v, 64);
      LowIsMod(v, f.length);
      LowIdentity(v, 64);
      Pow2Monotone(64, f.length);
      LowIdentity(v, f.length);
    }
  }

  /** A preserving write of a non-truncating caller changes the field's own bits only. */
  lemma PreserveKeepsOthers(pre: Bytes, post: Bytes, f: Field, w: nat, input: Bytes)
    requires IsAccessWidth(w) && f.rule.Preserve?
    requires Written(pre, post, f, w, input, false)
    ensures OthersKept(pre, post, f.offset, f.length)
  {
  }

  /** Hence it gives the same memory at every access width that succeeds. */
  lemma WidthIndependent(pre: Bytes, post1: Bytes, post2: Bytes, f: Field, w1: nat, w2: nat, input: Bytes)
    requires IsAccessWidth(w1) && IsAccessWidth(w2) && f.rule.Preserve?
    requires Written(pre, post1, f, w1, input, false)
    requires Written(pre, post2, f, w2, input, false)
    ensures post1 == post2
  {
    forall j: nat | j < 8 * |pre|
      ensures BitAt(post1, j) == BitAt(post2, j)
    {
      assert BitAt(post1, j) == WrittenBit(pre, f, w1, input, false, j);
      assert BitAt(post2, j) == WrittenBit(pre, f, w2, input, false, j);
    }
    BitsDetermineBytes(post1, post2);
  }

  /** And a second write to the field forgets the first. */
  lemma LastWriteWins(pre: Bytes, mid: Bytes, post: Bytes, direct: Bytes, f: Field, w: nat, first: Bytes,
                      second: Bytes, allowTruncation: bool)
    requires IsAccessWidth(w)
    requires Written(pre, mid, f, w, first, allowTruncation)
    requires Written(mid, post, f, w, second, allowTruncation)
    requires Written(pre, direct, f, w, second, allowTruncation)
    ensures post == direct
  {
    forall j: nat | j < 8 * |pre|
      ensures BitAt(post, j) == BitAt(direct, j)
    {
      assert BitAt(mid, j) == WrittenBit(pre, f, w, first, allowTruncation, j);
      assert BitAt(post, j) == WrittenBit(mid, f, w, second, allowTruncation, j);
      assert BitAt(direct, j) == WrittenBit(pre, f, w, second, allowTruncation, j);
    }
    BitsDetermineBytes(post, direct);
  }

  /** Preserving writes to fields that share no bit commute, at any two widths. */
  lemma DisjointWritesCommute(pre: Bytes, m1: Bytes, m2: Bytes, p1: Bytes, p2: Bytes,
                              f: Field, g: Field, w: nat, v: nat, a: Bytes, b: Bytes)
    requires IsAccessWidth(w) && IsAccessWidth(v) && f.rule.Preserve? && g.rule.Preserve?
    requires f.offset + f.length <= g.offset || g.offset + g.length <= f.offset
    requires Written(pre, m1, f, w, a, false) && Written(m1, p1, g, v, b, false)
    requires Written(pre, m2, g, v, b, false) && Written(m2, p2, f, w, a, false)
    ensures p1 == p2
  {
    forall j: nat | j < 8 * |pre|
      ensures BitAt(p1, j) == BitAt(p2, j)
    {
      assert BitAt(m1, j) == WrittenBit(pre, f, w, a, false, j);
      assert BitAt(p1, j) == WrittenBit(m1, g, v, b, false, j);
      assert BitAt(m2, j) == WrittenBit(pre, g, v, b, false, j);
      assert BitAt(p2, j) == WrittenBit(m2, f, w, a, false, j);
    }
    BitsDetermineBytes(p1, p2);
  }

  /** A bit of a touched word that is not the field's own. */
  predicate Neighbour(f: Field, w: nat, j: nat)
    requires IsAccessWidth(w)
  {
    f.length > 0 && AlignDown(f.offset, w) <= j < AlignUp(f.offset + f.length, w) &&
    !(f.offset <= j < f.offset + f.length)
  }

  /**
   With truncation allowed the preserve rule does not read before it writes, so
   the neighbouring bits survive exactly when they were already zero.
   */
  lemma TruncatingPreserve(pre: Bytes, post: Bytes, f: Field, w: nat, input: Bytes)
    requires IsAccessWidth(w) && f.rule.Preserve?
    requires Written(pre, post, f, w, input, true)
    ensures OthersKept(pre, post, f.offset, f.length)
       <==> forall j: nat | j < 8 * |pre| && Neighbour(f, w, j) :: !BitAt(pre, j)
  {
  }

  lemma {:induction false} AlignUpAdds(x: nat, y: nat, w: nat)
    requires w > 0 && AlignDown(x, w) == x
    ensures AlignUp(x + y, w) == x + AlignUp(y, w)
    decreases x
  {
    if x >= w {
      AlignUpAdds(x - w, y, w);
    }
  }

  lemma BoundsInBits(aligned: nat, q: nat, offset: nat, regionLength: nat)
    requires aligned == 8 * q
    ensures (aligned / 8 <= regionLength && offset / 8 <= regionLength - aligned / 8) <==>
            offset - offset % 8 + aligned <= 8 * regionLength
  {
  }

  /** The bounds test, in bits. */
  lemma PassesInBits(f: Field, w: nat, regionLength: nat)
    requires IsAccessWidth(w)
    ensures PassesBoundsTest(f, w, regionLength) <==> TestedEnd(f, w) <= 8 * regionLength
  {
    AlignByte(f.length + (w - 1), w);
    BoundsInBits(AlignUp(f.length, w), AlignUp(f.length, w) / 8, f.offset, regionLength);
  }

  /** For a field that starts on a word boundary the bounds test is exact. */
  lemma BoundsTestExactWhenAligned(f: Field, w: nat, regionLength: nat)
    requires IsAccessWidth(w) && f.length > 0 && AlignDown(f.offset, w) == f.offset
    ensures PassesBoundsTest(f, w, regionLength) <==> WordsInside(f, w, f.length, regionLength)
  {
    AlignUpAdds(f.offset, f.length, w);
    AlignByte(f.offset, w);
    PassesInBits(f, w, regionLength);
  }

  /** Offsets and lengths as whole words p, q and the bits s, e after them. */
  lemma WordsEnd(p: nat, s: nat, q: nat, e: nat, w: nat)
    requires w > 0 && AlignDown(p, w) == p && AlignDown(q, w) == q
    ensures AlignUp((p + s) + (q + e), w) == p + q + AlignUp(s + e, w)
    ensures AlignUp(q + e, w) == q + AlignUp(e, w)
  {
    assert (p + s) + (q + e) == p + (q + (s + e));
    AlignUpAddsTwo(p, q, s + e, w);
    AlignUpAdds(q, e, w);
  }

  lemma AlignUpAddsTwo(p: nat, q: nat, x: nat, w: nat)
    requires w > 0 && AlignDown(p, w) == p && AlignDown(q, w) == q
    ensures AlignUp(p + (q + x), w) == p + q + AlignUp(x, w)
  {
    AlignUpAdds(p, q + x, w);
    AlignUpAdds(q, x, w);
  }

  lemma ByteOf(p: nat, s: nat)
    requires p % 8 == 0
    ensures (p + s) - (p + s) % 8 == p + (s - s % 8)
  {
  }

  lemma AlignUpSmall(x: nat, w: nat)
    requires w > 0 && x <= 2 * w
    ensures AlignUp(x, w) == if x == 0 then 0 else if x <= w then w else 2 * w
  {
    AlignUpFacts(x, w);
    assert x >= w ==> AlignDown(x, w) == w + AlignDown(x - w, w);
  }

  /** The field's last word begins past where the test expects it. */
  predicate SpillsOver(s: nat, e: nat, w: nat) {
    s != 0 && (e == 0 || s + e > w)
  }

  /** The field begins past the first byte of a word, and its odd bits fit the word. */
  predicate StartsLate(s: nat, e: nat, w: nat) {
    s >= 8 && e != 0 && s + e <= w
  }

  lemma PartsCompared(s: nat, e: nat, w: nat)
    requires IsAccessWidth(w) && s < w && e < w
    ensures s - s % 8 + AlignUp(e, w) < AlignUp(s + e, w) <==> SpillsOver(s, e, w)
    ensures AlignUp(s + e, w) < s - s % 8 + AlignUp(e, w) <==> StartsLate(s, e, w)
  {
    AlignUpSmall(e, w);
    AlignUpSmall(s + e, w);
  }

  /** The end the test computes for a field. */
  function TestedEnd(f: Field, w: nat): nat
    requires IsAccessWidth(w)
  {
    f.offset - f.offset % 8 + AlignUp(f.length, w)
  }

  /** That end against the end of the last touched word. */
  lemma EndsCompared(f: Field, w: nat)
    requires IsAccessWidth(w) && f.length > 0
    ensures TestedEnd(f, w) < AlignUp(f.offset + f.length, w) <==> SpillsOver(f.offset % w, f.length % w, w)
    ensures AlignUp(f.offset + f.length, w) < TestedEnd(f, w) <==> StartsLate(f.offset % w, f.length % w, w)
  {
    var p, q := AlignDown(f.offset, w), AlignDown(f.length, w);
    var s, e := f.offset - p, f.length - q;
    AlignFacts(f.offset, w);
    AlignFacts(f.length, w);
    AlignMod(f.offset, w);
    AlignMod(f.length, w);
    AlignByte(f.offset, w);
    WordsEnd(p, s, q, e, w);
    ByteOf(p, s);
    PartsCompared(s, e, w);
  }

  lemma EndsWhole(f: Field, w: nat)
    requires IsAccessWidth(w)
    ensures TestedEnd(f, w) % 8 == 0 && AlignUp(f.offset + f.length, w) % 8 == 0
  {
    AlignByte(f.length + (w - 1), w);
    AlignByte(f.offset + f.length + (w - 1), w);
    WholeBytes(f.offset, AlignUp(f.length, w));
  }

  lemma WholeBytes(x: nat, y: nat)
    requires y % 8 == 0
    ensures (x - x % 8 + y) % 8 == 0
  {
  }

  /** Some region is long enough for the test and too short for the words exactly if the field spills over. */
  lemma BoundsTestAdmitsIff(f: Field, w: nat)
    requires IsAccessWidth(w) && f.length > 0
    ensures (exists n: nat :: PassesBoundsTest(f, w, n) && !WordsInside(f, w, f.length, n)) <==>
            SpillsOver(f.offset % w, f.length % w, w)
  {
    EndsCompared(f, w);
    EndsWhole(f, w);
    forall n: nat
      ensures PassesBoundsTest(f, w, n) <==> TestedEnd(f, w) <= 8 * n
    {
      PassesInBits(f, w, n);
    }
    if SpillsOver(f.offset % w, f.length % w, w) {
      var n := TestedEnd(f, w) / 8;
      assert PassesBoundsTest(f, w, n) && !WordsInside(f, w, f.length, n);
    }
  }

  /** Some region holds all the words and is refused exactly if the field starts late in its word. */
  lemma BoundsTestRefusesIff(f: Field, w: nat)
    requires IsAccessWidth(w) && f.length > 0
    ensures (exists n: nat :: WordsInside(f, w, f.length, n) && !PassesBoundsTest(f, w, n)) <==>
            StartsLate(f.offset % w, f.length % w, w)
  {
    EndsCompared(f, w);
    EndsWhole(f, w);
    forall n: nat
      ensures PassesBoundsTest(f, w, n) <==> TestedEnd(f, w) <= 8 * n
    {
      PassesInBits(f, w, n);
    }
    if StartsLate(f.offset % w, f.length % w, w) {
      var n := AlignUp(f.offset + f.length, w) / 8;
      assert WordsInside(f, w, f.length, n) && !PassesBoundsTest(f, w, n);
    }
  }

  /**
   The test is right for every region exactly if the field begins in the first byte of a
   word and either on its boundary or close enough to it for its odd bits to fit the word.
   */
  lemma BoundsTestExactIff(f: Field, w: nat)
    requires IsAccessWidth(w) && f.length > 0
    ensures (forall n: nat :: PassesBoundsTest(f, w, n) <==> WordsInside(f, w, f.length, n)) <==>
            f.offset % w < 8 &&
            (f.offset % w == 0 || (f.length % w != 0 && f.offset % w + f.length % w <= w))
  {
    BoundsTestAdmitsIff(f, w);
    BoundsTestRefusesIff(f, w);
    if !SpillsOver(f.offset % w, f.length % w, w) && !StartsLate(f.offset % w, f.length % w, w) {
      forall n: nat
        ensures PassesBoundsTest(f, w, n) <==> WordsInside(f, w, f.length, n)
      {
      }
    }
  }

  /**
   One field of each kind: one is refused although all its words are inside the region,
   the other passes although its last word is not.
   */
  lemma BoundsTestErrsUnaligned()
    ensures exists f: Field, regionLength: nat ::
              WordsInside(f, 16, f.length, regionLength) && !PassesBoundsTest(f, 16, regionLength)
    ensures exists f: Field, regionLength: nat ::
              PassesBoundsTest(f, 16, regionLength) && !WordsInside(f, 16, f.length, regionLength)
  {
    assert AlignDown(27, 16) == 16 && AlignDown(19, 16) == 16;
    var f := Field(null, WordAcc, 8, 4, Preserve);
    assert WordsInside(f, 16, f.length, 2) && !PassesBoundsTest(f, 16, 2);
    assert AlignDown(35, 16) == 32 && AlignDown(31, 16) == 16;
    var g := Field(null, WordAcc, 4, 16, Preserve);
    assert PassesBoundsTest(g, 16, 2) && !WordsInside(g, 16, g.length, 2);
  }
}
