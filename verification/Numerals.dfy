/**
 Number conversions: binary-coded decimal (src/aml_base.c:92-137), integers to hexadecimal
 or decimal strings, and integers to buffers and back (src/aml_conv.c).
 */
module Numerals {
  import opened Bits

  // -------------------------------------------- binary-coded decimal

  /** The decimal digits of x, four bits each. */
  function Bcd(x: nat): nat {
    if x == 0 then 0 else x % 10 + 16 * Bcd(x / 10)
  }

  /** The number whose decimal digits are the nibbles of y. */
  function FromBcd(y: nat): nat {
    if y == 0 then 0 else y % 16 + 10 * FromBcd(y / 16)
  }

  predicate DecimalNibbles(y: nat) {
    y == 0 || (y % 16 < 10 && DecimalNibbles(y / 16))
  }

  function Power10(n: nat): (p: nat)
    ensures p >= 1
  {
    if n == 0 then 1 else 10 * Power10(n - 1)
  }

  function Power16(n: nat): (p: nat)
    ensures p >= 1
  {
    if n == 0 then 1 else 16 * Power16(n - 1)
  }

  lemma {:induction false} BcdIsDecimal(x: nat)
    ensures DecimalNibbles(Bcd(x)) && FromBcd(Bcd(x)) == x
  {
    if x > 0 {
      BcdIsDecimal(x / 10);
      FromBcdJoins(x % 10, Bcd(x / 10));
    }
  }

  lemma FromBcdJoins(digit: nat, rest: nat)
    requires digit < 10
    ensures FromBcd(digit + 16 * rest) == digit + 10 * FromBcd(rest)
    ensures DecimalNibbles(digit + 16 * rest) <==> DecimalNibbles(rest)
  {
    NibbleSplits(digit, rest);
  }

  lemma NibbleSplits(digit: nat, rest: nat)
    requires digit < 16
    ensures (digit + 16 * rest) % 16 == digit && (digit + 16 * rest) / 16 == rest
  {
  }

  /** Converting back and forth is the identity exactly on values whose nibbles are all decimal digits. */
  lemma {:induction false} FromBcdRoundTrip(y: nat)
    ensures Bcd(FromBcd(y)) == y <==> DecimalNibbles(y)
  {
    BcdIsDecimal(FromBcd(y));
    if DecimalNibbles(y) {
      DecimalRoundTrip(y);
    }
  }

  lemma {:induction false} DecimalRoundTrip(y: nat)
    requires DecimalNibbles(y)
    ensures Bcd(FromBcd(y)) == y
  {
    if y > 0 {
      DecimalRoundTrip(y / 16);
      NonzeroNibbles(y);
      BcdJoins(y % 16, FromBcd(y / 16));
    }
  }

  lemma BcdJoins(digit: nat, rest: nat)
    requires digit < 10 && digit + 10 * rest > 0
    ensures Bcd(digit + 10 * rest) == digit + 16 * Bcd(rest)
  {
    DigitSplits(digit, rest);
  }

  lemma DigitSplits(digit: nat, rest: nat)
    requires digit < 10
    ensures (digit + 10 * rest) % 10 == digit && (digit + 10 * rest) / 10 == rest
  {
  }

  lemma {:induction false} NonzeroNibbles(y: nat)
    requires y > 0
    ensures FromBcd(y) > 0
  {
    if y / 16 > 0 {
      NonzeroNibbles(y / 16);
    }
  }

  /** The encoding of x has n nibbles exactly when x has n decimal digits. */
  lemma {:induction false} BcdFits(x: nat, n: nat)
    ensures Bcd(x) < Power16(n) <==> x < Power10(n)
    decreases n
  {
    if n > 0 {
      if x > 0 {
        BcdFits(x / 10, n - 1);
      }
    } else if x > 0 {
      BcdPositive(x);
    }
  }

  lemma {:induction false} BcdPositive(x: nat)
    requires x > 0
    ensures Bcd(x) > 0
  {
    if x / 10 > 0 {
      BcdPositive(x / 10);
    }
  }

  /** So the 64-bit encoder has room exactly for the numbers below 10^16, and the decoder never overflows. */
  lemma BcdFits64(x: nat)
    ensures Bcd(x) < Power16(16) <==> x < 10_000_000_000_000_000
    ensures Power16(16) == 0x1_0000_0000_0000_0000
  {
    assert Power16(4) == 0x1_0000 && Power16(8) == 0x1_0000_0000 && Power16(12) == 0x1_0000_0000_0000;
    assert Power10(4) == 10_000 && Power10(8) == 100_000_000 && Power10(12) == 1_000_000_000_000;
    assert Power10(16) == 10_000_000_000_000_000;
    BcdFits(x, 16);
  }

  lemma {:induction false} FromBcdBound(y: nat, n: nat)
    requires y < Power16(n)
    ensures 3 * FromBcd(y) <= 5 * (Power10(n) - 1)
    decreases n
  {
    if y > 0 {
      FromBcdBound(y / 16, n - 1);
    }
  }

  /** AmlDecimalToBcd. */
  method DecimalToBcd(value: nat) returns (output: nat)
    requires value < 10_000_000_000_000_000
    ensures output == Bcd(value) && output < Power16(16)
  {
    BcdFits64(value);
    var input := value;
    output := 0;
    var i := 0;
    ShiftIsWhole(Bcd(value));
    while input != 0
      invariant output < ShiftLeft(1, 4 * i)
      invariant output + ShiftLeft(Bcd(input), 4 * i) == Bcd(value)
      decreases input
    {
      var digit := input % 10;
      DigitPlaced(output, input, 4 * i, 4 * (i + 1));
      output := Or(output, ShiftLeft(digit, 4 * i));
      input := input / 10;
      i := i + 1;
    }
    ShiftZero(4 * i);
  }

  lemma ShiftIsWhole(x: nat)
    ensures ShiftLeft(x, 0) == x
  {
  }

  /** One more digit over the ones already placed. */
  lemma DigitPlaced(acc: nat, x: nat, n: nat, next: nat)
    requires acc < ShiftLeft(1, n) && x > 0 && next == n + 4
    ensures Or(acc, ShiftLeft(x % 10, n)) < ShiftLeft(1, next)
    ensures Or(acc, ShiftLeft(x % 10, n)) + ShiftLeft(Bcd(x / 10), next) == acc + ShiftLeft(Bcd(x), n)
  {
    NibbleStep(acc, x % 10, Bcd(x / 10), n, next);
  }

  /** One more nibble over the ones already placed. */
  lemma NibbleStep(acc: nat, d: nat, rest: nat, n: nat, next: nat)
    requires acc < ShiftLeft(1, n) && d < 16 && next == n + 4
    ensures Or(acc, ShiftLeft(d, n)) < ShiftLeft(1, next)
    ensures Or(acc, ShiftLeft(d, n)) + ShiftLeft(rest, next) == acc + ShiftLeft(d + 16 * rest, n)
  {
    OrAdds(acc, d, n);
    ShiftLeft4(rest);
    ShiftLeftTwice(rest, 4, n);
    ShiftLeftAdds(d, 16 * rest, n);
    ShiftLeft4(1);
    ShiftLeftTwice(1, 4, n);
    ShiftLeftAdds(d + 1, 15 - d, n);
    ShiftLeftAdds(d, 1, n);
  }

  /** AmlBcdToDecimal: from the highest nibble down, without ever leaving 64 bits. */
  method BcdToDecimal(input: nat) returns (output: nat)
    requires input < Power16(16)
    ensures output == FromBcd(input) && output < Power16(16)
  {
    output := 0;
    var i: int := 64 - 4;
    NothingAbove(input);
    ghost var left: nat := 16;
    while i >= 0
      invariant i == 4 * left - 4 && left <= 16
      invariant output == FromBcd(Shr(input, 4 * left))
      decreases left
    {
      ghost var shift: nat := i;
      NibbleAt(input, shift, 4 * left);
      output := output * 10;
      output := output + And(Shr(input, i), 0xF);
      i := i - 4;
      left := left - 1;
      assert shift == 4 * left;
    }
    FromBcdFits64(input);
  }

  lemma FromBcdFits64(y: nat)
    requires y < Power16(16)
    ensures FromBcd(y) < Power16(16)
  {
    FromBcdBound(y, 16);
    BcdFits64(0);
    assert Power10(4) == 10_000 && Power10(8) == 100_000_000 && Power10(12) == 1_000_000_000_000;
    assert Power10(16) == 10_000_000_000_000_000;
  }

  lemma {:induction false} ShrPower(x: nat, n: nat)
    requires x < Power16(n)
    ensures Shr(x, 4 * n) == 0
    decreases n
  {
    if n > 0 {
      Shr4(x, 4 * (n - 1));
      ShrPower(x / 16, n - 1);
    }
  }

  lemma Shr4(x: nat, n: nat)
    ensures Shr(x, n + 4) == Shr(x / 16, n)
  {
    assert Shr(x, n + 4) == Shr(x / 2, n + 3);
    assert Shr(x / 2, n + 3) == Shr(x / 2 / 2, n + 2);
    assert Shr(x / 2 / 2, n + 2) == Shr(x / 2 / 2 / 2, n + 1);
    assert x / 2 / 2 / 2 / 2 == x / 16;
  }

  lemma NothingAbove(x: nat)
    requires x < Power16(16)
    ensures Shr(x, 64) == 0
  {
    ShrPower(x, 16);
  }

  lemma {:induction false} ShrDivides(x: nat, n: nat)
    ensures Shr(x, n + 4) == Shr(x, n) / 16
    decreases n
  {
    if n == 0 {
      Shr4(x, 0);
    } else {
      ShrDivides(x / 2, n - 1);
    }
  }

  lemma NibbleAt(x: nat, i: nat, next: nat)
    requires next == i + 4
    ensures FromBcd(Shr(x, i)) == FromBcd(Shr(x, next)) * 10 + And(Shr(x, i), 0xF)
  {
    ShrDivides(x, i);
    AndLow4(Shr(x, i));
  }

  /** Masking with n ones keeps the n low bits. */
  lemma {:induction false} AndOnes(z: nat, n: nat)
    ensures And(z, Pow2(n) - 1) == Low(z, n)
    decreases n
  {
    if n > 0 {
      AndOnes(z / 2, n - 1);
      assert (Pow2(n) - 1) / 2 == Pow2(n - 1) - 1;
      if z == 0 {
        LowIdentity(0, n);
      }
    }
  }

  lemma AndLow4(z: nat)
    ensures And(z, 0xF) == z % 16
  {
    assert Pow2(2) == 4 && Pow2(4) == 16;
    AndOnes(z, 4);
    LowIsMod(z, 4);
  }

  lemma AndLow8(z: nat)
    ensures And(z, 0xFF) == z % 256
  {
    Pow2Of8();
    AndOnes(z, 8);
    LowIsMod(z, 8);
  }

  // ------------------------------------------------------ integer strings

  function Base(hex: bool): nat {
    if hex then 16 else 10
  }

  function Quotient(x: nat, hex: bool): nat {
    if hex then x / 16 else x / 10
  }

  function Remainder(x: nat, hex: bool): (r: nat)
    ensures r < Base(hex)
  {
    if hex then x % 16 else x % 10
  }

  function Times(x: nat, hex: bool): nat {
    if hex then 16 * x else 10 * x
  }

  /** The number a string of digits, most significant first, stands for. */
  function Value(digits: seq<nat>, hex: bool): nat {
    if digits == [] then 0 else Times(Value(digits[..|digits| - 1], hex), hex) + digits[|digits| - 1]
  }

  predicate AreDigits(digits: seq<nat>, hex: bool) {
    forall i :: 0 <= i < |digits| ==> digits[i] < Base(hex)
  }

  /** The shortest numeral of x. */
  function Numeral(x: nat, hex: bool): (digits: seq<nat>)
    ensures digits != []
    decreases x
  {
    if Quotient(x, hex) == 0 then [x] else Numeral(Quotient(x, hex), hex) + [Remainder(x, hex)]
  }

  lemma {:induction false} NumeralStandsForNumber(x: nat, hex: bool)
    ensures AreDigits(Numeral(x, hex), hex) && Value(Numeral(x, hex), hex) == x
    decreases x
  {
    if Quotient(x, hex) == 0 {
      assert [x][..0] == [];
    } else {
      NumeralStandsForNumber(Quotient(x, hex), hex);
      var init := Numeral(Quotient(x, hex), hex);
      assert (init + [Remainder(x, hex)])[..|init|] == init;
    }
  }

  /** No string of digits that stands for x is shorter. */
  lemma {:induction false} NumeralIsShortest(digits: seq<nat>, hex: bool)
    requires digits != [] && AreDigits(digits, hex)
    ensures |Numeral(Value(digits, hex), hex)| <= |digits|
    decreases |digits|
  {
    var init, last := digits[..|digits| - 1], digits[|digits| - 1];
    var x := Value(digits, hex);
    assert Quotient(x, hex) == Value(init, hex) && Remainder(x, hex) == last;
    if init != [] {
      NumeralIsShortest(init, hex);
    }
  }

  function PowerOf(n: nat, hex: bool): nat {
    if n == 0 then 1 else Times(PowerOf(n - 1, hex), hex)
  }

  lemma {:induction false} NumeralFits(x: nat, hex: bool, n: nat)
    requires n > 0
    ensures |Numeral(x, hex)| <= n <==> x < PowerOf(n, hex)
    decreases n
  {
    if Quotient(x, hex) > 0 {
      if n > 1 {
        NumeralFits(Quotient(x, hex), hex, n - 1);
      }
    } else if n > 1 {
      NumeralFits(0, hex, n - 1);
    }
  }

  /** The characters the code reserves for a numeral. */
  function StringSize(is64: bool, hex: bool): nat {
    if hex then (if is64 then 16 else 8) else (if is64 then 20 else 10)
  }

  function Limit(is64: bool): nat {
    if is64 then 0x1_0000_0000_0000_0000 else 0x1_0000_0000
  }

  /** They are always enough, and the greatest integer of the width needs them all. */
  lemma StringSizeSuffices(x: nat, is64: bool, hex: bool)
    requires x < Limit(is64)
    ensures |Numeral(x, hex)| <= StringSize(is64, hex)
    ensures |Numeral(Limit(is64) - 1, hex)| == StringSize(is64, hex)
  {
    var n := StringSize(is64, hex);
    LimitBetween(is64, hex);
    NumeralFits(x, hex, n);
    NumeralFits(Limit(is64) - 1, hex, n);
    NumeralFits(Limit(is64) - 1, hex, n - 1);
  }

  lemma LimitBetween(is64: bool, hex: bool)
    ensures PowerOf(StringSize(is64, hex) - 1, hex) < Limit(is64) <= PowerOf(StringSize(is64, hex), hex)
  {
    assert PowerOf(4, true) == 0x1_0000 && PowerOf(8, true) == 0x1_0000_0000 && PowerOf(12, true) == 0x1_0000_0000_0000;
    assert PowerOf(16, true) == 0x1_0000_0000_0000_0000;
    assert PowerOf(5, false) == 100_000 && PowerOf(10, false) == 10_000_000_000 &&
           PowerOf(15, false) == 1_000_000_000_000_000;
    assert PowerOf(20, false) == 100_000_000_000_000_000_000;
  }

  function DigitChar(d: nat): char
    requires d < 16
  {
    if d < 10 then '0' + (d as char) else 'a' + ((d - 10) as char)
  }

  function Text(digits: seq<nat>): string
    requires AreDigits(digits, true)
  {
    seq(|digits|, i requires 0 <= i < |digits| => DigitChar(digits[i]))
  }

  /** What a character stands for as a digit. */
  function DigitOf(c: char): nat {
    if '0' <= c <= '9' then (c - '0') as int
    else if 'a' <= c <= 'f' then 10 + (c - 'a') as int
    else 0
  }

  /** The number a text stands for, read from the left. */
  function TextValue(text: string, base: nat): nat {
    if text == [] then 0 else base * TextValue(text[..|text| - 1], base) + DigitOf(text[|text| - 1])
  }

  /** A numeral in lower case, without needless zeros in front. */
  predicate ProperNumeral(text: string, decimal: bool) {
    text != [] && (forall i :: 0 <= i < |text| ==> '0' <= text[i] <= '9' || (!decimal && 'a' <= text[i] <= 'f')) &&
    (text[0] == '0' ==> |text| == 1)
  }

  lemma DigitChars()
    ensures DigitChar(0) == '0' && DigitChar(1) == '1' && DigitChar(2) == '2' && DigitChar(3) == '3'
    ensures DigitChar(4) == '4' && DigitChar(5) == '5' && DigitChar(6) == '6' && DigitChar(7) == '7'
    ensures DigitChar(8) == '8' && DigitChar(9) == '9' && DigitChar(10) == 'a' && DigitChar(11) == 'b'
    ensures DigitChar(12) == 'c' && DigitChar(13) == 'd' && DigitChar(14) == 'e' && DigitChar(15) == 'f'
  {
  }

  lemma CharOfDigit(d: nat, decimal: bool)
    requires d < Base(!decimal)
    ensures DigitOf(DigitChar(d)) == d && (DigitChar(d) == '0' <==> d == 0)
    ensures '0' <= DigitChar(d) <= '9' || (!decimal && 'a' <= DigitChar(d) <= 'f')
  {
  }

  lemma {:induction false} TextStandsForDigits(digits: seq<nat>, hex: bool)
    requires AreDigits(digits, hex)
    ensures AreDigits(digits, true)
    ensures TextValue(Text(digits), if hex then 16 else 10) == Value(digits, hex)
    decreases |digits|
  {
    if digits != [] {
      var last := |digits| - 1;
      assert Text(digits)[..last] == Text(digits[..last]);
      CharOfDigit(digits[last], !hex);
      TextStandsForDigits(digits[..last], hex);
    }
  }

  lemma {:induction false} NumeralStart(x: nat, hex: bool)
    ensures Numeral(x, hex)[0] == 0 ==> x == 0
    decreases x
  {
    if Quotient(x, hex) > 0 {
      NumeralStart(Quotient(x, hex), hex);
    }
  }

  /** The text of a numeral stands for its number, and is written as numbers are. */
  lemma TextStandsForNumber(x: nat, decimal: bool)
    ensures AreDigits(Numeral(x, !decimal), true)
    ensures var text := Text(Numeral(x, !decimal));
            TextValue(text, if decimal then 10 else 16) == x && ProperNumeral(text, decimal)
  {
    var digits := Numeral(x, !decimal);
    NumeralStandsForNumber(x, !decimal);
    TextStandsForDigits(digits, !decimal);
    NumeralStart(x, !decimal);
    forall i | 0 <= i < |digits|
      ensures '0' <= Text(digits)[i] <= '9' || (!decimal && 'a' <= Text(digits)[i] <= 'f')
      ensures Text(digits)[i] == '0' <==> digits[i] == 0
    {
      CharOfDigit(digits[i], decimal);
    }
  }

  /** Only one text is a proper numeral of a number. */
  lemma {:induction false} ProperNumeralUnique(text: string, decimal: bool)
    requires ProperNumeral(text, decimal)
    ensures var x := TextValue(text, if decimal then 10 else 16);
            AreDigits(Numeral(x, !decimal), true) && Text(Numeral(x, !decimal)) == text
    decreases |text|
  {
    var last := |text| - 1;
    if last == 0 {
      OneChar(text, decimal);
    } else {
      ProperPrefix(text, decimal);
      ProperNumeralUnique(text[..last], decimal);
      LastChar(text[last], decimal);
      OneMoreChar(text[..last], text[last], decimal);
      assert text == text[..last] + [text[last]];
    }
  }

  lemma OneChar(text: string, decimal: bool)
    requires ProperNumeral(text, decimal) && |text| == 1
    ensures var x := TextValue(text, if decimal then 10 else 16);
            AreDigits(Numeral(x, !decimal), true) && Text(Numeral(x, !decimal)) == text
  {
    LastChar(text[0], decimal);
    assert text[..0] == [] && text == [text[0]];
    assert Numeral(DigitOf(text[0]), !decimal) == [DigitOf(text[0])];
  }

  lemma OneMoreChar(text: string, c: char, decimal: bool)
    requires ProperNumeral(text, decimal) && text[0] != '0'
    requires DigitOf(c) < Base(!decimal) && DigitChar(DigitOf(c)) == c
    requires AreDigits(Numeral(TextValue(text, if decimal then 10 else 16), !decimal), true)
    requires Text(Numeral(TextValue(text, if decimal then 10 else 16), !decimal)) == text
    ensures var x := TextValue(text + [c], if decimal then 10 else 16);
            AreDigits(Numeral(x, !decimal), true) && Text(Numeral(x, !decimal)) == text + [c]
  {
    var rest := TextValue(text, if decimal then 10 else 16);
    PrefixPositive(text, decimal);
    assert (text + [c])[..|text|] == text;
    LastDigit(rest, DigitOf(c), !decimal);
    TextAppends(Numeral(rest, !decimal), DigitOf(c));
  }

  lemma TextAppends(digits: seq<nat>, d: nat)
    requires AreDigits(digits, true) && d < 16
    ensures AreDigits(digits + [d], true) && Text(digits + [d]) == Text(digits) + [DigitChar(d)]
  {
  }

  lemma LastChar(c: char, decimal: bool)
    requires '0' <= c <= '9' || (!decimal && 'a' <= c <= 'f')
    ensures DigitOf(c) < Base(!decimal) && DigitChar(DigitOf(c)) == c
  {
  }

  lemma LastDigit(rest: nat, d: nat, hex: bool)
    requires d < Base(hex) && rest > 0
    ensures Numeral(Times(rest, hex) + d, hex) == Numeral(rest, hex) + [d]
  {
  }

  lemma ProperPrefix(text: string, decimal: bool)
    requires ProperNumeral(text, decimal) && |text| > 1
    ensures ProperNumeral(text[..|text| - 1], decimal) && text[..|text| - 1][0] != '0'
  {
  }

  lemma {:induction false} PrefixPositive(text: string, decimal: bool)
    requires ProperNumeral(text, decimal) && text[0] != '0'
    ensures TextValue(text, if decimal then 10 else 16) > 0
    decreases |text|
  {
    if |text| > 1 {
      ProperPrefix(text, decimal);
      PrefixPositive(text[..|text| - 1], decimal);
    } else {
      LastChar(text[0], decimal);
      assert text[..0] == [];
    }
  }

  /** The digits written so far, and what is left of the number, make up its numeral. */
  predicate Building(x: nat, scratch: nat, digits: seq<nat>, hex: bool) {
    if scratch == 0 && digits != [] then Numeral(x, hex) == digits
    else Numeral(x, hex) == Numeral(scratch, hex) + digits
  }

  lemma BuildStep(x: nat, scratch: nat, digits: seq<nat>, hex: bool)
    requires Building(x, scratch, digits, hex) && (scratch != 0 || digits == [])
    ensures Building(x, Quotient(scratch, hex), [Remainder(scratch, hex)] + digits, hex)
  {
  }

  /** The digits lie at the end of the scratch string. */
  predicate Written(conv: seq<char>, end: nat, digits: seq<nat>) {
    |digits| <= end <= |conv| && AreDigits(digits, true) &&
    forall j :: 0 <= j < |digits| ==> conv[end - |digits| + j] == DigitChar(digits[j])
  }

  lemma WrittenText(conv: seq<char>, end: nat, digits: seq<nat>)
    requires Written(conv, end, digits)
    ensures conv[end - |digits|..end] == Text(digits)
  {
  }

  lemma WriteOneMore(before: seq<char>, after: seq<char>, end: nat, digits: seq<nat>, d: nat)
    requires Written(before, end, digits) && |digits| < end && d < 16
    requires after == before[end - |digits| - 1 := DigitChar(d)]
    ensures Written(after, end, [d] + digits)
  {
  }

  /** The state of the conversion loop. */
  ghost predicate Converting(x: nat, scratch: nat, conv: seq<char>, end: nat, digits: seq<nat>, hex: bool) {
    Building(x, scratch, digits, hex) && Written(conv, end, digits)
  }

  lemma ConvertOneMore(x: nat, scratch: nat, before: seq<char>, after: seq<char>, end: nat, digits: seq<nat>, hex: bool)
    requires Converting(x, scratch, before, end, digits, hex) && (scratch != 0 || digits == []) && |digits| < end
    requires after == before[end - |digits| - 1 := DigitChar(Remainder(scratch, hex))]
    ensures Converting(x, Quotient(scratch, hex), after, end, [Remainder(scratch, hex)] + digits, hex)
  {
    BuildStep(x, scratch, digits, hex);
    WriteOneMore(before, after, end, digits, Remainder(scratch, hex));
  }

  /** When nothing is left, or there is no more room, the numeral has been written. */
  lemma Converted(x: nat, scratch: nat, conv: seq<char>, end: nat, digits: seq<nat>, hex: bool)
    requires Converting(x, scratch, conv, end, digits, hex) && digits != [] && |Numeral(x, hex)| <= end
    requires scratch == 0 || |digits| == end
    ensures AreDigits(Numeral(x, hex), true) && conv[end - |digits|..end] == Text(Numeral(x, hex))
  {
    WrittenText(conv, end, digits);
  }

  /** AmlConvIntegerToString: the shortest hexadecimal or decimal numeral of the integer. */
  method IntegerToString(x: nat, is64: bool, decimal: bool) returns (text: string)
    requires x < Limit(is64)
    ensures AreDigits(Numeral(x, !decimal), true) && text == Text(Numeral(x, !decimal))
    ensures TextValue(text, if decimal then 10 else 16) == x && ProperNumeral(text, decimal)
  {
    var size := StringSize(is64, !decimal);
    var conv := new char[33];
    var scratch := x;
    ghost var digits: seq<nat> := [];
    StringSizeSuffices(x, is64, !decimal);
    assert Numeral(x, !decimal) + [] == Numeral(x, !decimal);
    var i := 0;
    while i < size && !(scratch == 0 && i != 0)
      invariant i == |digits| <= size
      invariant Converting(x, scratch, conv[..], size, digits, !decimal)
    {
      ghost var before := conv[..];
      conv[size - i - 1] := DigitChar(Remainder(scratch, !decimal));
      ConvertOneMore(x, scratch, before, conv[..], size, digits, !decimal);
      digits := [Remainder(scratch, !decimal)] + digits;
      scratch := Quotient(scratch, !decimal);
      i := i + 1;
    }
    Converted(x, scratch, conv[..], size, digits, !decimal);
    text := conv[size - i..size];
    assert text == conv[..][size - i..size];
    TextStandsForNumber(x, decimal);
  }

  // ------------------------------------------------------ integer buffers

  lemma ShrByte(x: nat, n: nat, next: nat)
    requires next == n + 8
    ensures Shr(x, next) == Shr(x / 256, n)
  {
    Shr4(x, n + 4);
    Shr4(x / 16, n);
    assert x / 16 / 16 == x / 256;
  }

  lemma {:induction false} ToLEByte(x: nat, n: nat, i: nat)
    requires i < n
    ensures ToLE(x, n)[i] == Shr(x, 8 * i) % 256
    decreases n
  {
    if i > 0 {
      ToLEByte(x / 256, n - 1, i - 1);
      ShrByte(x, 8 * (i - 1), 8 * i);
    }
  }

  function Min(a: nat, b: nat): nat {
    if a < b then a else b
  }

  function Zeros(n: nat): Bytes {
    seq(n, _ => 0)
  }

  /** What a buffer of n bytes holds after an integer has been stored in it. */
  function StoredInteger(x: nat, integerSize: nat, n: nat): Bytes {
    ToLE(x, Min(integerSize, n)) + Zeros(n - Min(integerSize, n))
  }

  /** AmlConvIntegerToBuffer into an existing buffer. */
  method IntegerToBuffer(x: nat, integerSize: nat, buffer: array<byte>)
    modifies buffer
    ensures buffer[..] == StoredInteger(x, integerSize, buffer.Length)
  {
    var updateSize := Min(integerSize, buffer.Length);
    ghost var low := ToLE(x, updateSize);
    var i := 0;
    while i < updateSize
      invariant i <= updateSize && forall j :: 0 <= j < i ==> buffer[j] == low[j]
    {
      AndLow8(Shr(x, 8 * i));
      ToLEByte(x, updateSize, i);
      buffer[i] := And(Shr(x, 8 * i), 0xFF);
      i := i + 1;
    }
    i := 0;
    while i < buffer.Length - updateSize
      invariant i <= buffer.Length - updateSize
      invariant forall j :: 0 <= j < updateSize ==> buffer[j] == low[j]
      invariant forall j :: updateSize <= j < updateSize + i ==> buffer[j] == 0
    {
      buffer[updateSize + i] := 0;
      i := i + 1;
    }
  }

  lemma {:induction false} FromLEAppend(s: Bytes, b: byte)
    ensures FromLE(s + [b]) == FromLE(s) + ShiftLeft(b, 8 * |s|)
    decreases |s|
  {
    if s == [] {
      assert [b][1..] == [];
    } else {
      assert (s + [b])[1..] == s[1..] + [b];
      FromLEAppend(s[1..], b);
      ShiftLeft8(ShiftLeft(b, 8 * (|s| - 1)));
      ShiftLeftTwice(b, 8 * (|s| - 1), 8);
    }
  }

  lemma {:induction false} FromLEBelow(s: Bytes)
    ensures FromLE(s) < ShiftLeft(1, 8 * |s|)
    decreases |s|
  {
    if s != [] {
      FromLEBelow(s[1..]);
      ShiftLeft8(ShiftLeft(1, 8 * (|s| - 1)));
      ShiftLeftTwice(1, 8 * (|s| - 1), 8);
    }
  }

  /** AmlConvBufferToInteger: an empty buffer is refused. */
  method BufferToInteger(buffer: seq<byte>, integerSize: nat) returns (ok: bool, value: nat)
    ensures ok <==> buffer != []
    ensures ok ==> value == FromLE(buffer[..Min(integerSize, |buffer|)])
  {
    if |buffer| == 0 {
      return false, 0;
    }
    value := 0;
    var updateSize := Min(integerSize, |buffer|);
    var i := 0;
    while i < updateSize
      invariant i <= updateSize && value == FromLE(buffer[..i])
    {
      FromLEBelow(buffer[..i]);
      OrAdds(value, buffer[i], 8 * i);
      FromLEAppend(buffer[..i], buffer[i]);
      assert buffer[..i] + [buffer[i]] == buffer[..i + 1];
      value := Or(value, ShiftLeft(buffer[i], 8 * i));
      i := i + 1;
    }
    return true, value;
  }

  lemma {:induction false} LEIsLow(x: nat, n: nat)
    ensures FromLE(ToLE(x, n)) == Low(x, 8 * n)
    decreases n
  {
    if n > 0 {
      LEIsLow(x / 256, n - 1);
      Low8(x, 8 * (n - 1));
    }
  }

  lemma Low8(x: nat, w: nat)
    ensures Low(x, w + 8) == x % 256 + 256 * Low(x / 256, w)
  {
    Low4(x, w + 4);
    Low4(x / 16, w);
    assert x / 16 / 16 == x / 256 && x % 256 == x % 16 + 16 * (x / 16 % 16);
  }

  lemma Low4(x: nat, w: nat)
    ensures Low(x, w + 4) == x % 16 + 16 * Low(x / 16, w)
  {
    assert Low(x, w + 4) == 2 * Low(x / 2, w + 3) + x % 2;
    assert Low(x / 2, w + 3) == 2 * Low(x / 2 / 2, w + 2) + x / 2 % 2;
    assert Low(x / 2 / 2, w + 2) == 2 * Low(x / 2 / 2 / 2, w + 1) + x / 2 / 2 % 2;
    assert Low(x / 2 / 2 / 2, w + 1) == 2 * Low(x / 2 / 2 / 2 / 2, w) + x / 2 / 2 / 2 % 2;
    assert x / 2 / 2 / 2 / 2 == x / 16;
  }

  /** Storing an integer in a buffer and reading it back keeps its low bytes, as many as both sides have. */
  lemma IntegerThroughBuffer(x: nat, integerSize: nat, n: nat)
    ensures var k := Min(integerSize, n);
            FromLE(StoredInteger(x, integerSize, n)[..k]) == x % Pow2(8 * k)
  {
    var k := Min(integerSize, n);
    assert StoredInteger(x, integerSize, n)[..k] == ToLE(x, k);
    LEIsLow(x, k);
    LowIsMod(x, 8 * k);
  }

  // ------------------------------------------------------- digit by digit

  /** Decimal digit, nibble and byte k of x, from the right. */
  function DecimalDigit(x: nat, k: nat): nat {
    if k == 0 then x % 10 else DecimalDigit(x / 10, k - 1)
  }

  function Nibble(x: nat, k: nat): nat {
    if k == 0 then x % 16 else Nibble(x / 16, k - 1)
  }

  function ByteOf(x: nat, k: nat): nat {
    if k == 0 then x % 256 else ByteOf(x / 256, k - 1)
  }

  lemma {:induction false} DigitsOfZero(k: nat)
    ensures DecimalDigit(0, k) == Nibble(0, k) == ByteOf(0, k) == 0
  {
    if k > 0 {
      DigitsOfZero(k - 1);
    }
  }

  /** Nibble k of the encoding is decimal digit k of the number. */
  lemma {:induction false} BcdDigits(x: nat, k: nat)
    ensures Nibble(Bcd(x), k) == DecimalDigit(x, k)
    decreases k
  {
    if x == 0 {
      DigitsOfZero(k);
    } else {
      NibbleSplits(x % 10, Bcd(x / 10));
      if k > 0 {
        BcdDigits(x / 10, k - 1);
      }
    }
  }

  lemma KnownBcd()
    ensures Bcd(1234) == 0x1234 && FromBcd(0x1234) == 1234
    ensures Bcd(90) == 0x90 && FromBcd(0x90) == 90
  {
    assert Bcd(12) == 0x12 && Bcd(123) == 0x123;
    assert FromBcd(0x12) == 12 && FromBcd(0x123) == 123;
  }

  /** The buffer gets the bytes of the integer, the low ones first, and zeros after them. */
  lemma StoredBytes(x: nat, integerSize: nat, n: nat, i: nat)
    requires i < n
    ensures |StoredInteger(x, integerSize, n)| == n
    ensures StoredInteger(x, integerSize, n)[i] == if i < integerSize then ByteOf(x, i) else 0
  {
    if i < integerSize {
      LEDigits(x, Min(integerSize, n), i);
    }
  }

  lemma {:induction false} LEDigits(x: nat, n: nat, i: nat)
    requires i < n
    ensures ToLE(x, n)[i] == ByteOf(x, i)
    decreases n
  {
    if i > 0 {
      LEDigits(x / 256, n - 1, i - 1);
    }
  }

  /** The integer read from bytes has them as its digits, the first one lowest, and no others. */
  lemma {:induction false} ReadDigits(s: Bytes, i: nat)
    ensures ByteOf(FromLE(s), i) == if i < |s| then s[i] else 0
    decreases |s|
  {
    if s == [] {
      DigitsOfZero(i);
    } else if i > 0 {
      ReadDigits(s[1..], i - 1);
    }
  }

  lemma KnownBytes()
    ensures StoredInteger(0x11223344, 4, 6) == [0x44, 0x33, 0x22, 0x11, 0, 0]
    ensures StoredInteger(0x11223344, 4, 2) == [0x44, 0x33]
    ensures FromLE([0x44, 0x33]) == 0x3344
  {
    assert ToLE(0x1122, 2) == [0x22, 0x11];
    assert ToLE(0x112233, 3) == [0x33, 0x22, 0x11];
    assert [0x44, 0x33][1..] == [0x33] && FromLE([0x33]) == 0x33;
  }

  lemma KnownTexts()
    ensures AreDigits(Numeral(0xbeef, true), true) && Text(Numeral(0xbeef, true)) == "beef"
    ensures AreDigits(Numeral(2026, false), true) && Text(Numeral(2026, false)) == "2026"
    ensures AreDigits(Numeral(0, true), true) && Text(Numeral(0, true)) == "0"
  {
    assert Numeral(0xbe, true) == [11, 14] && Numeral(0xbeef, true) == [11, 14, 14, 15];
    assert Numeral(20, false) == [2, 0] && Numeral(2026, false) == [2, 0, 2, 6];
  }
}
