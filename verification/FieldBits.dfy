/**
 What a bit field is: a run of bits of some memory, seen as a zero-extended
 little-endian value.  Buffer fields and region fields share these statements.
 */
module FieldBits {
  import opened Bits

  /** Bit k of an input of any size, zero-extended. */
  predicate InputBit(input: Bytes, k: nat) {
    k < 8 * |input| && BitAt(input, k)
  }

  /** result holds bits [start, start + len) of mem, zero-extended or cut to fit. */
  ghost predicate Fetched(mem: Bytes, start: nat, len: nat, result: Bytes)
    requires start + len <= 8 * |mem|
  {
    forall j: nat | j < 8 * |result| :: BitAt(result, j) == (j < len && BitAt(mem, start + j))
  }

  /** The field's bits of post are the zero-extended (or cut) input. */
  ghost predicate Holds(post: Bytes, start: nat, len: nat, input: Bytes)
    requires start + len <= 8 * |post|
  {
    forall j: nat | j < len :: BitAt(post, start + j) == InputBit(input, j)
  }

  /** The bits outside the field are as they were. */
  ghost predicate OthersKept(pre: Bytes, post: Bytes, start: nat, len: nat) {
    |post| == |pre| &&
    forall j: nat | j < 8 * |pre| && !(start <= j < start + len) :: BitAt(post, j) == BitAt(pre, j)
  }

  /** Two results that fetch the same field into the same size are equal. */
  lemma FetchedUnique(mem: Bytes, start: nat, len: nat, r1: Bytes, r2: Bytes)
    requires start + len <= 8 * |mem| && |r1| == |r2|
    requires Fetched(mem, start, len, r1) && Fetched(mem, start, len, r2)
    ensures r1 == r2
  {
    BitsDetermineBytes(r1, r2);
  }

  /** Fetching what was stored gives the input cut to the field and to the result. */
  lemma StoreThenFetch(mem: Bytes, start: nat, len: nat, input: Bytes, result: Bytes)
    requires start + len <= 8 * |mem|
    requires Holds(mem, start, len, input) && Fetched(mem, start, len, result)
    ensures forall j: nat | j < 8 * |result| :: BitAt(result, j) == (j < len && InputBit(input, j))
  {
  }

  /** Storing a value that fills the field and reading it back at its size is the identity. */
  lemma RoundTripExact(mem: Bytes, start: nat, input: Bytes, result: Bytes)
    requires |result| == |input| && start + 8 * |input| <= 8 * |mem|
    requires Holds(mem, start, 8 * |input|, input) && Fetched(mem, start, 8 * |input|, result)
    ensures result == input
  {
    StoreThenFetch(mem, start, 8 * |input|, input, result);
    BitsDetermineBytes(result, input);
  }

  /** Storing the 64-bit integer v in a field of len bits and reading a 64-bit integer gives v mod 2^len. */
  lemma IntegerRoundTrip(mem: Bytes, start: nat, len: nat, v: nat, result: Bytes)
    requires v < Pow2(64) && |result| == 8 && start + len <= 8 * |mem|
    requires Holds(mem, start, len, ToLE(v, 8)) && Fetched(mem, start, len, result)
    ensures FromLE(result) == v % Pow2(len)
  {
    var w := Low(v, len);
    LowIsMod(v, len);
    LowBelow(v, len);
    FromLEBound(result);
    forall k: nat | k < 64
      ensures Bit(FromLE(result), k) == Bit(w, k)
    {
      BitFromLE(result, k);
      BitLow(v, len, k);
      BitToLE(v, 8, k);
      StoreThenFetch(mem, start, len, ToLE(v, 8), result);
    }
    BitsDetermineWord(FromLE(result), w, 64);
  }

  lemma {:induction false} LowBelow(v: nat, len: nat)
    ensures Low(v, len) <= v
    decreases len
  {
    if len > 0 {
      LowBelow(v / 2, len - 1);
    }
  }

  /** A field that shares no bit with the written one reads the same before and after. */
  lemma DisjointFieldUnaffected(pre: Bytes, post: Bytes, start: nat, len: nat, start': nat, len': nat, r: Bytes,
                                r': Bytes)
    requires start' + len' <= 8 * |pre| && |r| == |r'|
    requires start' + len' <= start || start + len <= start'
    requires OthersKept(pre, post, start, len)
    requires Fetched(pre, start', len', r) && Fetched(post, start', len', r')
    ensures r == r'
  {
    forall j: nat | j < 8 * |r|
      ensures BitAt(r, j) == BitAt(r', j)
    {
      if j < len' {
        assert BitAt(post, start' + j) == BitAt(pre, start' + j);
      }
    }
    BitsDetermineBytes(r, r');
  }

  method ZeroFill(a: array<byte>, n: nat)
    requires n <= a.Length
    modifies a
    ensures forall k: nat | k < n :: a[k] == 0
    ensures a[n..] == old(a[n..])
  {
    for i := 0 to n
      invariant forall k: nat | k < i :: a[k] == 0
      invariant a[n..] == old(a[n..])
    {
      a[i] := 0;
    }
  }

  lemma ZeroBits(s: Bytes)
    requires forall k: nat | k < |s| :: s[k] == 0
    ensures forall j: nat | j < 8 * |s| :: !BitAt(s, j)
  {
    forall j: nat | j < 8 * |s|
      ensures !BitAt(s, j)
    {
      BitZero(j % 8);
    }
  }
}
