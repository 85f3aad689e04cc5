/**
 The 32-bit hash of a name segment under a seed (src/aml_hash.c): murmur3 over one
 four-byte block.  Every step of it can be undone, so for a fixed seed no two
 segments share a hash, and for a fixed segment no two seeds do.
 */
module Hash {

  /** A name segment: its four bytes as the word they are compared by. */
  type Seg = bv32

  const KEY_LENGTH: bv32 := 4

  function Rotl15(x: bv32): bv32 {
    (x << 15) | (x >> 17)
  }

  function Rotl13(x: bv32): bv32 {
    (x << 13) | (x >> 19)
  }

  function Mul1(x: bv32): bv32 {
    x * 0xcc9e2d51
  }

  function Mul2(x: bv32): bv32 {
    x * 0x1b873593
  }

  function Mul3(x: bv32): bv32 {
    x * 0x85ebca6b
  }

  function Mul4(x: bv32): bv32 {
    x * 0xc2b2ae35
  }

  function Affine(x: bv32): bv32 {
    x * 5 + 0xe6546b64
  }

  function XorShift16(x: bv32): bv32 {
    x ^ (x >> 16)
  }

  function XorShift13(x: bv32): bv32 {
    x ^ (x >> 13)
  }

  /** What the block becomes before it meets the hash. */
  function Scramble(k: bv32): bv32 {
    Mul2(Rotl15(Mul1(k)))
  }

  /** AmlMurmur3FinalizationMix32. */
  function Mix(hash: bv32): bv32 {
    XorShift16(Mul4(XorShift13(Mul3(XorShift16(hash)))))
  }

  function Xor(x: bv32, y: bv32): bv32 {
    x ^ y
  }

  /** AmlHashKey32 on a four-byte key: one block, no tail, and the key's length. */
  function HashKey(key: Seg, seed: bv32): bv32 {
    Mix(Xor(Affine(Rotl13(Xor(seed, Scramble(key)))), KEY_LENGTH))
  }

  /** Published values of the hash for the key "test", and the hashes of "_SB_" and then "PCI0" from the seed 'AmlH'. */
  lemma KnownHashes()
    ensures HashKey(0x74736574, 0) == 0xba6bd213
    ensures HashKey(0x74736574, 0x9747b28c) == 0x704b81dc
    ensures HashKey(0x5f42535f, 0x416d6c48) == 0x33346aaf
    ensures HashKey(0x30494350, 0x33346aaf) == 0xbd41932e
  {
  }

  // -------------------------------------------------- each step undone

  function UnXorShift13(y: bv32): bv32 {
    y ^ (y >> 13) ^ (y >> 26)
  }

  lemma XorShift16Undone(x: bv32)
    ensures XorShift16(XorShift16(x)) == x
  {
    assert XorShift16(x ^ (x >> 16)) == x;
  }

  lemma XorShift13Undone(x: bv32)
    ensures UnXorShift13(XorShift13(x)) == x
  {
    assert UnXorShift13(x ^ (x >> 13)) == x;
  }

  lemma XorShift16Injective(x: bv32, y: bv32)
    requires XorShift16(x) == XorShift16(y)
    ensures x == y
  {
    XorShift16Undone(x);
    XorShift16Undone(y);
  }

  lemma XorShift13Injective(x: bv32, y: bv32)
    requires XorShift13(x) == XorShift13(y)
    ensures x == y
  {
    XorShift13Undone(x);
    XorShift13Undone(y);
  }

  function UnMul1(y: bv32): bv32 {
    y * 0xdee13bb1
  }

  lemma UnMul1Undoes(x: bv32)
    ensures UnMul1(x * 0xcc9e2d51) == x
  {
  }

  lemma Mul1Undone(x: bv32)
    ensures UnMul1(Mul1(x)) == x
  {
    UnMul1Undoes(x);
  }

  lemma Mul1Injective(x: bv32, y: bv32)
    requires Mul1(x) == Mul1(y)
    ensures x == y
  {
    Mul1Undone(x);
    Mul1Undone(y);
  }

  function UnMul2(y: bv32): bv32 {
    y * 0x56ed309b
  }

  lemma UnMul2Undoes(x: bv32)
    ensures UnMul2(x * 0x1b873593) == x
  {
  }

  lemma Mul2Undone(x: bv32)
    ensures UnMul2(Mul2(x)) == x
  {
    UnMul2Undoes(x);
  }

  lemma Mul2Injective(x: bv32, y: bv32)
    requires Mul2(x) == Mul2(y)
    ensures x == y
  {
    Mul2Undone(x);
    Mul2Undone(y);
  }

  function UnMul3(y: bv32): bv32 {
    y * 0xa5cb9243
  }

  lemma UnMul3Undoes(x: bv32)
    ensures UnMul3(x * 0x85ebca6b) == x
  {
  }

  lemma Mul3Undone(x: bv32)
    ensures UnMul3(Mul3(x)) == x
  {
    UnMul3Undoes(x);
  }

  lemma Mul3Injective(x: bv32, y: bv32)
    requires Mul3(x) == Mul3(y)
    ensures x == y
  {
    Mul3Undone(x);
    Mul3Undone(y);
  }

  function UnMul4(y: bv32): bv32 {
    y * 0x7ed1b41d
  }

  lemma UnMul4Undoes(x: bv32)
    ensures UnMul4(x * 0xc2b2ae35) == x
  {
  }

  lemma Mul4Undone(x: bv32)
    ensures UnMul4(Mul4(x)) == x
  {
    UnMul4Undoes(x);
  }

  lemma Mul4Injective(x: bv32, y: bv32)
    requires Mul4(x) == Mul4(y)
    ensures x == y
  {
    Mul4Undone(x);
    Mul4Undone(y);
  }

  lemma AffineInjective(x: bv32, y: bv32)
    requires Affine(x) == Affine(y)
    ensures x == y
  {
  }

  lemma RotlInjective(x: bv32, y: bv32)
    ensures Rotl13(x) == Rotl13(y) ==> x == y
    ensures Rotl15(x) == Rotl15(y) ==> x == y
  {
  }

  lemma XorInjective(x: bv32, y: bv32, k: bv32)
    ensures Xor(x, k) == Xor(y, k) ==> x == y
    ensures Xor(k, x) == Xor(k, y) ==> x == y
  {
  }

  lemma MixInjective(x: bv32, y: bv32)
    requires Mix(x) == Mix(y)
    ensures x == y
  {
    var x1, y1 := XorShift16(x), XorShift16(y);
    var x2, y2 := Mul3(x1), Mul3(y1);
    var x3, y3 := XorShift13(x2), XorShift13(y2);
    var x4, y4 := Mul4(x3), Mul4(y3);
    XorShift16Injective(x4, y4);
    Mul4Injective(x3, y3);
    XorShift13Injective(x2, y2);
    Mul3Injective(x1, y1);
    XorShift16Injective(x, y);
  }

  lemma ScrambleInjective(x: bv32, y: bv32)
    requires Scramble(x) == Scramble(y)
    ensures x == y
  {
    var x1, y1 := Mul1(x), Mul1(y);
    Mul2Injective(Rotl15(x1), Rotl15(y1));
    RotlInjective(x1, y1);
    Mul1Injective(x, y);
  }

  lemma AbsorbInjective(x: bv32, y: bv32)
    requires Mix(Xor(Affine(Rotl13(x)), KEY_LENGTH)) == Mix(Xor(Affine(Rotl13(y)), KEY_LENGTH))
    ensures x == y
  {
    var x1, y1 := Rotl13(x), Rotl13(y);
    MixInjective(Xor(Affine(x1), KEY_LENGTH), Xor(Affine(y1), KEY_LENGTH));
    XorInjective(Affine(x1), Affine(y1), KEY_LENGTH);
    AffineInjective(x1, y1);
    RotlInjective(x, y);
  }

  /** For a fixed seed no two segments share a hash. */
  lemma InjectiveInKey(k1: Seg, k2: Seg, seed: bv32)
    requires HashKey(k1, seed) == HashKey(k2, seed)
    ensures k1 == k2
  {
    AbsorbInjective(Xor(seed, Scramble(k1)), Xor(seed, Scramble(k2)));
    XorInjective(Scramble(k1), Scramble(k2), seed);
    ScrambleInjective(k1, k2);
  }

  /** For a fixed segment no two seeds lead to the same hash. */
  lemma InjectiveInSeed(k: Seg, seed1: bv32, seed2: bv32)
    requires HashKey(k, seed1) == HashKey(k, seed2)
    ensures seed1 == seed2
  {
    AbsorbInjective(Xor(seed1, Scramble(k)), Xor(seed2, Scramble(k)));
    XorInjective(seed1, seed2, Scramble(k));
  }
}
