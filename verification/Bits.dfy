/**
 Bits of unsigned machine integers and of byte strings.

 A machine word is a natural number; Bit(x, k) is bit k of its binary form.
 The bitwise operators are the usual ones, defined on the binary form, and a
 left shift in a w-bit type drops what leaves the type.  A byte string is read
 as one long bit string: bit i is bit (i % 8) of byte (i / 8).
 */
module Bits {

  type byte = b: nat | b < 256
  type Bytes = seq<byte>

  function Pow2(n: nat): (p: nat)
    ensures p >= 1
  {
    if n == 0 then 1 else 2 * Pow2(n - 1)
  }

  predicate Bit(x: nat, k: nat)
    decreases k
  {
    if k == 0 then x % 2 == 1 else Bit(x / 2, k - 1)
  }

  function And(a: nat, b: nat): (r: nat)
    ensures r <= a && r <= b
    decreases a
  {
    if a == 0 || b == 0 then 0
    else 2 * And(a / 2, b / 2) + (if a % 2 == 1 && b % 2 == 1 then 1 else 0)
  }

  function Or(a: nat, b: nat): nat
    decreases a + b
  {
    if a == 0 && b == 0 then 0
    else 2 * Or(a / 2, b / 2) + (if a % 2 == 1 || b % 2 == 1 then 1 else 0)
  }

  /** Complement within w bits. */
  function Not(x: nat, w: nat): nat
    requires x < Pow2(w)
  {
    Pow2(w) - 1 - x
  }

  /** The w low bits of x: what a w-bit type keeps of it. */
  function Low(x: nat, w: nat): nat
    decreases w
  {
    if w == 0 then 0 else 2 * Low(x / 2, w - 1) + x % 2
  }

  /** x << n in a w-bit type. */
  function Shl(x: nat, n: nat, w: nat): nat
    decreases n
  {
    if n == 0 then Low(x, w) else Shl(2 * x, n - 1, w)
  }

  /** x >> n. */
  function Shr(x: nat, n: nat): nat
    decreases n
  {
    if n == 0 then x else Shr(x / 2, n - 1)
  }

  /** Bit i of a byte string. */
  predicate BitAt(s: Bytes, i: nat)
    requires i < 8 * |s|
  {
    Bit(s[i / 8], i % 8)
  }

  /** The integer whose little-endian memory image is s. */
  function FromLE(s: Bytes): nat {
    if s == [] then 0 else s[0] + 256 * FromLE(s[1..])
  }

  /** The n low bytes of x in memory order. */
  function ToLE(x: nat, n: nat): (s: Bytes)
    ensures |s| == n
    decreases n
  {
    if n == 0 then [] else [x % 256] + ToLE(x / 256, n - 1)
  }

  // ---------------------------------------------------------- operators

  lemma {:induction false} BitAnd(a: nat, b: nat, k: nat)
    ensures Bit(And(a, b), k) == (Bit(a, k) && Bit(b, k))
    decreases k
  {
    if a == 0 || b == 0 {
      BitZero(k);
    } else if k > 0 {
      BitAnd(a / 2, b / 2, k - 1);
    }
  }

  lemma {:induction false} BitOr(a: nat, b: nat, k: nat)
    ensures Bit(Or(a, b), k) == (Bit(a, k) || Bit(b, k))
    decreases k
  {
    if a == 0 && b == 0 {
      BitZero(k);
    } else if k > 0 {
      BitOr(a / 2, b / 2, k - 1);
    }
  }

  lemma {:induction false} OrBound(a: nat, b: nat, w: nat)
    requires a < Pow2(w) && b < Pow2(w)
    ensures Or(a, b) < Pow2(w)
    decreases w
  {
    if w > 0 && (a > 0 || b > 0) {
      OrBound(a / 2, b / 2, w - 1);
    }
  }

  lemma {:induction false} BitZero(k: nat)
    ensures !Bit(0, k)
  {
    if k > 0 {
      BitZero(k - 1);
    }
  }

  lemma {:induction false} BitNot(x: nat, w: nat, k: nat)
    requires x < Pow2(w)
    ensures Bit(Not(x, w), k) == (k < w && !Bit(x, k))
    decreases k
  {
    if w == 0 {
      BitZero(k);
    } else if k > 0 {
      BitNot(x / 2, w - 1, k - 1);
    }
  }

  lemma {:induction false} BitLow(x: nat, w: nat, k: nat)
    ensures Bit(Low(x, w), k) == (k < w && Bit(x, k))
    decreases k
  {
    if w == 0 {
      BitZero(k);
    } else if k > 0 {
      BitLow(x / 2, w - 1, k - 1);
    }
  }

  lemma {:induction false} LowBound(x: nat, w: nat)
    ensures Low(x, w) < Pow2(w)
  {
    if w > 0 {
      LowBound(x / 2, w - 1);
    }
  }

  /** Keeping the w low bits is reduction modulo 2^w. */
  lemma {:induction false} LowIsMod(x: nat, w: nat)
    ensures Low(x, w) == x % Pow2(w)
  {
    if w > 0 {
      LowIsMod(x / 2, w - 1);
      ModDouble(x, Pow2(w - 1));
    }
  }

  lemma ModDouble(x: nat, p: nat)
    requires p > 0
    ensures x % (2 * p) == 2 * ((x / 2) % p) + x % 2
  {
    var q, r := (x / 2) / p, (x / 2) % p;
    assert x / 2 == q * p + r;
    ModUnique(x, 2 * p, q, 2 * r + x % 2);
  }

  lemma ModUnique(x: nat, d: nat, q: nat, r: nat)
    requires d > 0 && x == q * d + r && r < d
    ensures x % d == r
  {
    var q' := x / d;
    assert (q - q') * d == x % d - r;
    SmallMultiple(q - q', d);
  }

  lemma SmallMultiple(k: int, d: int)
    requires -d < k * d < d
    ensures k == 0
  {
  }

  lemma {:induction false} BitShl(x: nat, n: nat, w: nat, k: nat)
    ensures Bit(Shl(x, n, w), k) == (k < w && n <= k && Bit(x, k - n))
    decreases n
  {
    if n == 0 {
      BitLow(x, w, k);
    } else {
      BitShl(2 * x, n - 1, w, k);
      if n <= k {
        assert (2 * x) / 2 == x;
      }
    }
  }

  lemma {:induction false} ShlBound(x: nat, n: nat, w: nat)
    ensures Shl(x, n, w) < Pow2(w)
    decreases n
  {
    if n == 0 {
      LowBound(x, w);
    } else {
      ShlBound(2 * x, n - 1, w);
    }
  }

  lemma {:induction false} BitShr(x: nat, n: nat, k: nat)
    ensures Bit(Shr(x, n), k) == Bit(x, n + k)
    decreases n
  {
    if n > 0 {
      BitShr(x / 2, n - 1, k);
    }
  }

  /** Words of w bits with the same bits are the same word. */
  lemma {:induction false} BitsDetermineWord(x: nat, y: nat, w: nat)
    requires x < Pow2(w) && y < Pow2(w)
    requires forall k: nat | k < w :: Bit(x, k) == Bit(y, k)
    ensures x == y
    decreases w
  {
    if w > 0 {
      assert Bit(x, 0) == Bit(y, 0);
      forall k: nat | k < w - 1
        ensures Bit(x / 2, k) == Bit(y / 2, k)
      {
        assert Bit(x, k + 1) == Bit(y, k + 1);
      }
      BitsDetermineWord(x / 2, y / 2, w - 1);
    }
  }

  // --------------------------------------------------------------- masks

  /** The n low bits of a w-bit word, built without ever shifting by n. */
  function LowMask(n: nat, w: nat): nat
    requires 1 <= n <= w
  {
    ShlOne(n - 1, w);
    Or(Shl(1, n - 1, w), Shl(1, n - 1, w) - 1)
  }

  lemma {:induction false} ShlPow2(x: nat, n: nat, w: nat)
    requires x * Pow2(n) < Pow2(w)
    ensures Shl(x, n, w) == x * Pow2(n)
    decreases n
  {
    if n == 0 {
      LowIdentity(x, w);
    } else {
      assert (2 * x) * Pow2(n - 1) == x * Pow2(n);
      ShlPow2(2 * x, n - 1, w);
    }
  }

  lemma {:induction false} LowIdentity(x: nat, w: nat)
    requires x < Pow2(w)
    ensures Low(x, w) == x
  {
    if w > 0 {
      LowIdentity(x / 2, w - 1);
    }
  }

  lemma {:induction false} Pow2Monotone(m: nat, n: nat)
    requires m < n
    ensures 2 * Pow2(m) <= Pow2(n)
    decreases n
  {
    if m + 1 < n {
      Pow2Monotone(m, n - 1);
    }
  }

  lemma ShlOne(n: nat, w: nat)
    requires n < w
    ensures Shl(1, n, w) == Pow2(n)
  {
    Pow2Monotone(n, w);
    ShlPow2(1, n, w);
  }

  lemma {:induction false} BitPow2Less1(n: nat, k: nat)
    ensures Bit(Pow2(n) - 1, k) == (k < n)
    decreases k
  {
    if n == 0 {
      BitZero(k);
    } else if k > 0 {
      assert (Pow2(n) - 1) / 2 == Pow2(n - 1) - 1;
      BitPow2Less1(n - 1, k - 1);
    }
  }

  lemma {:induction false} BitPow2(n: nat, k: nat)
    ensures Bit(Pow2(n), k) == (k == n)
    decreases n
  {
    if n == 0 {
      if k > 0 {
        BitZero(k - 1);
      }
    } else if k > 0 {
      BitPow2(n - 1, k - 1);
    }
  }

  /** The two-part mask has exactly the n low bits set. */
  lemma BitLowMask(n: nat, w: nat, k: nat)
    requires 1 <= n <= w
    ensures Bit(LowMask(n, w), k) == (k < n)
  {
    ShlOne(n - 1, w);
    BitOr(Pow2(n - 1), Pow2(n - 1) - 1, k);
    BitPow2(n - 1, k);
    BitPow2Less1(n - 1, k);
  }

  // -------------------------------------------------------- byte strings

  lemma Pow2Of8()
    ensures Pow2(8) == 256
  {
  }

  /** Byte strings with the same bits are the same byte string. */
  lemma BitsDetermineBytes(s: Bytes, t: Bytes)
    requires |s| == |t|
    requires forall i: nat | i < 8 * |s| :: BitAt(s, i) == BitAt(t, i)
    ensures s == t
  {
    forall m: nat | m < |s|
      ensures s[m] == t[m]
    {
      forall k: nat | k < 8
        ensures Bit(s[m], k) == Bit(t[m], k)
      {
        assert BitAt(s, 8 * m + k) == BitAt(t, 8 * m + k);
      }
      Pow2Of8();
      BitsDetermineWord(s[m], t[m], 8);
    }
  }

  lemma BitShift8(x: nat, k: nat)
    ensures Bit(x, k + 8) == Bit(x / 256, k)
  {
    BitShr(x, 8, k);
    Shr8(x);
  }

  lemma Shr8(x: nat)
    ensures Shr(x, 8) == x / 256
  {
  }

  lemma BitMod256(x: nat, k: nat)
    requires k < 8
    ensures Bit(x % 256, k) == Bit(x, k)
  {
    LowIsMod(x, 8);
    Pow2Of8();
    BitLow(x, 8, k);
  }

  /** Bit k of the register is bit k of its memory image. */
  lemma {:induction false} BitToLE(x: nat, n: nat, k: nat)
    requires k < 8 * n
    ensures BitAt(ToLE(x, n), k) == Bit(x, k)
    decreases n
  {
    if k < 8 {
      BitMod256(x, k);
    } else {
      BitToLE(x / 256, n - 1, k - 8);
      BitShift8(x, k - 8);
      assert ToLE(x, n)[k / 8] == ToLE(x / 256, n - 1)[(k - 8) / 8];
    }
  }

  lemma {:induction false} BitFromLE(s: Bytes, k: nat)
    ensures Bit(FromLE(s), k) == (k < 8 * |s| && BitAt(s, k))
    decreases |s|
  {
    if s == [] {
      BitZero(k);
    } else if k < 8 {
      BitMod256(FromLE(s), k);
      assert FromLE(s) % 256 == s[0];
    } else {
      BitShift8(FromLE(s), k - 8);
      assert FromLE(s) / 256 == FromLE(s[1..]);
      BitFromLE(s[1..], k - 8);
    }
  }

  lemma {:induction false} FromLEBound(s: Bytes)
    ensures FromLE(s) < Pow2(8 * |s|)
    decreases |s|
  {
    if s != [] {
      FromLEBound(s[1..]);
      Pow2Plus8(8 * (|s| - 1));
    }
  }

  lemma Pow2Plus8(n: nat)
    ensures Pow2(n + 8) == 256 * Pow2(n)
  {
    assert Pow2(n + 2) == 4 * Pow2(n);
    assert Pow2(n + 4) == 4 * Pow2(n + 2);
    assert Pow2(n + 6) == 4 * Pow2(n + 4);
  }

  // ------------------------------------------------------ unbounded shifts

  /** x << n where nothing leaves the type. */
  function ShiftLeft(x: nat, n: nat): nat {
    if n == 0 then x else 2 * ShiftLeft(x, n - 1)
  }

  lemma {:induction false} ShiftLeftAdds(x: nat, y: nat, n: nat)
    ensures ShiftLeft(x + y, n) == ShiftLeft(x, n) + ShiftLeft(y, n)
  {
    if n > 0 {
      ShiftLeftAdds(x, y, n - 1);
    }
  }

  lemma {:induction false} ShiftLeftTwice(x: nat, m: nat, n: nat)
    ensures ShiftLeft(ShiftLeft(x, m), n) == ShiftLeft(x, m + n)
  {
    if n > 0 {
      ShiftLeftTwice(x, m, n - 1);
    }
  }

  /** OR-ing a shifted word over a shorter one adds them. */
  lemma {:induction false} OrAdds(a: nat, x: nat, n: nat)
    requires a < ShiftLeft(1, n)
    ensures Or(a, ShiftLeft(x, n)) == a + ShiftLeft(x, n)
    decreases n
  {
    if n == 0 {
      OrZero(x);
    } else if a > 0 || x > 0 {
      OrAdds(a / 2, x, n - 1);
    } else {
      ShiftZero(n);
    }
  }

  lemma {:induction false} ShiftZero(n: nat)
    ensures ShiftLeft(0, n) == 0
  {
    if n > 0 {
      ShiftZero(n - 1);
    }
  }

  lemma {:induction false} OrZero(x: nat)
    ensures Or(0, x) == x
  {
    if x > 0 {
      OrZero(x / 2);
    }
  }

  lemma ShiftLeft4(x: nat)
    ensures ShiftLeft(x, 4) == 16 * x
  {
    assert ShiftLeft(x, 1) == 2 * x;
    assert ShiftLeft(x, 2) == 4 * x;
    assert ShiftLeft(4 * x, 1) == 8 * x;
    ShiftLeftTwice(x, 2, 2);
    assert ShiftLeft(4 * x, 2) == 16 * x;
  }

  lemma ShiftLeft8(x: nat)
    ensures ShiftLeft(x, 8) == 256 * x
  {
    ShiftLeft4(x);
    ShiftLeftTwice(x, 4, 4);
    ShiftLeft4(16 * x);
  }

  lemma {:induction false} OrRightZero(x: nat)
    ensures Or(x, 0) == x
  {
    if x > 0 {
      OrRightZero(x / 2);
    }
  }
}
