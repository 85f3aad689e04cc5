/**
 The bytes of section 20.2 of ACPI 6.5, one by one: how far the skipper goes over the
 interpreter's own opcode table, and what the constants are worth.
 */
module AmlBytes {
  import opened Bits
  import opened Decoder
  import opened OpcodeTable
  import SkipTheorem

  /** A byte as a number. */
  function Val(w: Bytes, i: nat): nat
    requires i < |w|
  {
    w[i]
  }

  /** Four bytes from there on, the low one first. */
  function Four(w: Bytes, at: nat): nat
    requires at + 4 <= |w|
  {
    Val(w, at) + 0x100 * Val(w, at + 1) + 0x1_0000 * Val(w, at + 2) + 0x100_0000 * Val(w, at + 3)
  }

  /** The byte is an opcode of one byte whatever follows it. */
  lemma Alone(c: Context, w: Bytes, cur: nat)
    requires c.table == SourceTable() && cur < |w|
    requires IsPassive(w[cur]) || IsStatement(w[cur]) || (IsOperator(w[cur]) && w[cur] != 0x92)
    requires w[cur] != 0x5B && w[cur] != 0x92
    ensures PeekOpcode(c, w, cur) == Some(Opcode(w[cur], false, OneByteInfo(w[cur])))
  {
    assert w[cur] in SourceTable();
  }

  lemma DataChosen(c: Context, w: Bytes, cur: nat, room: nat)
    requires cur <= |w| && room > 0 && MatchDataObject(c, w, cur).ok
    ensures ConsumeTermArg(c, w, cur, room) == MatchDataObject(c, w, cur)
  {
  }

  lemma ConstantChosen(c: Context, w: Bytes, cur: nat, room: nat)
    requires cur <= |w| && room > 0 && MatchConstInteger(c, w, cur).0.ok
    ensures ConsumeTermArg(c, w, cur, room) == MatchConstInteger(c, w, cur).0
  {
    SkipTheorem.ConstChosen(c, w, cur);
    DataChosen(c, w, cur, room);
  }

  // ------------------------------------------------------------ constants

  /** 0x00 is 0, 0x01 is 1, and 0xFF is 2^64 - 1. */
  lemma SmallConstants(c: Context, w: Bytes, cur: nat, room: nat)
    requires c.table == SourceTable() && cur < |w| && room > 0
    requires w[cur] == 0x00 || w[cur] == 0x01 || w[cur] == 0xFF
    ensures ConsumeTermArg(c, w, cur, room) == R(true, cur + 1)
    ensures MatchConstInteger(c, w, cur) ==
            (R(true, cur + 1), if w[cur] == 0x00 then 0 else if w[cur] == 0x01 then 1 else 18446744073709551615)
  {
    Alone(c, w, cur);
    SmallPeeked(c, w, cur);
    ConstantChosen(c, w, cur, room);
  }

  /** The one-byte opcode at the cursor. */
  ghost predicate Peeked(c: Context, w: Bytes, cur: nat, id: nat) {
    PeekOpcode(c, w, cur).Some? && PeekOpcode(c, w, cur).value.id == id && !PeekOpcode(c, w, cur).value.isTwoByte
  }

  lemma SmallPeeked(c: Context, w: Bytes, cur: nat)
    requires cur < |w| && (w[cur] == 0x00 || w[cur] == 0x01 || w[cur] == 0xFF) && Peeked(c, w, cur, w[cur])
    ensures MatchConstInteger(c, w, cur) ==
            (R(true, cur + 1), if w[cur] == 0x00 then 0 else if w[cur] == 0x01 then 1 else 18446744073709551615)
  {
    Ones();
  }

  lemma Ones()
    ensures Pow2(64) - 1 == 18446744073709551615
  {
    assert Pow2(8) == 256;
    Pow2Plus8(8);
    Pow2Plus8(16);
    Pow2Plus8(24);
    Pow2Plus8(32);
    Pow2Plus8(40);
    Pow2Plus8(48);
    Pow2Plus8(56);
  }

  /** 0x0A has one byte of data. */
  lemma ByteConstant(c: Context, w: Bytes, cur: nat, room: nat)
    requires c.table == SourceTable() && cur < |w| && w[cur] == 0x0A && room > 0
    ensures MatchConstInteger(c, w, cur).0.ok <==> cur + 2 <= |w|
    ensures cur + 2 <= |w| ==>
              ConsumeTermArg(c, w, cur, room) == R(true, cur + 2) &&
              MatchConstInteger(c, w, cur) == (R(true, cur + 2), w[cur + 1])
  {
    Alone(c, w, cur);
    if cur + 2 <= |w| {
      Value(w, cur + 1, 1);
      ConstantChosen(c, w, cur, room);
    }
  }

  /** 0x0B has two, the low one first. */
  lemma WordConstant(c: Context, w: Bytes, cur: nat, room: nat)
    requires c.table == SourceTable() && cur < |w| && w[cur] == 0x0B && room > 0
    ensures MatchConstInteger(c, w, cur).0.ok <==> cur + 3 <= |w|
    ensures cur + 3 <= |w| ==>
              ConsumeTermArg(c, w, cur, room) == R(true, cur + 3) &&
              MatchConstInteger(c, w, cur) == (R(true, cur + 3), Val(w, cur + 1) + 0x100 * Val(w, cur + 2))
  {
    Alone(c, w, cur);
    if cur + 3 <= |w| {
      Value(w, cur + 1, 2);
      Value(w, cur + 2, 1);
      ConstantChosen(c, w, cur, room);
    }
  }

  /** 0x0C has four. */
  lemma DWordConstant(c: Context, w: Bytes, cur: nat, room: nat)
    requires c.table == SourceTable() && cur < |w| && w[cur] == 0x0C && room > 0
    ensures MatchConstInteger(c, w, cur).0.ok <==> cur + 5 <= |w|
    ensures cur + 5 <= |w| ==>
              ConsumeTermArg(c, w, cur, room) == R(true, cur + 5) &&
              MatchConstInteger(c, w, cur) == (R(true, cur + 5), Four(w, cur + 1))
  {
    Alone(c, w, cur);
    if cur + 5 <= |w| {
      FourBytes(w, cur + 1);
      ConstantChosen(c, w, cur, room);
    }
  }

  /** 0x0E has eight. */
  lemma QWordConstant(c: Context, w: Bytes, cur: nat, room: nat)
    requires c.table == SourceTable() && cur < |w| && w[cur] == 0x0E && room > 0
    ensures MatchConstInteger(c, w, cur).0.ok <==> cur + 9 <= |w|
    ensures cur + 9 <= |w| ==>
              ConsumeTermArg(c, w, cur, room) == R(true, cur + 9) &&
              MatchConstInteger(c, w, cur) ==
              (R(true, cur + 9), Four(w, cur + 1) + 0x1_0000_0000 * Four(w, cur + 5))
  {
    Alone(c, w, cur);
    if cur + 9 <= |w| {
      EightBytes(w, cur + 1);
      ConstantChosen(c, w, cur, room);
    }
  }

  lemma Value(w: Bytes, at: nat, n: nat)
    requires n > 0 && at + n <= |w|
    ensures FromLE(w[at..at + n]) == Val(w, at) + 256 * FromLE(w[at + 1..at + n])
    ensures FromLE(w[at + n..at + n]) == 0
  {
    assert w[at..at + n][1..] == w[at + 1..at + n];
    assert w[at + n..at + n] == [];
  }

  lemma FourBytes(w: Bytes, at: nat)
    requires at + 4 <= |w|
    ensures FromLE(w[at..at + 4]) == Four(w, at)
  {
    Value(w, at, 4);
    Value(w, at + 1, 3);
    Value(w, at + 2, 2);
    Value(w, at + 3, 1);
  }

  lemma EightBytes(w: Bytes, at: nat)
    requires at + 8 <= |w|
    ensures FromLE(w[at..at + 8]) == Four(w, at) + 0x1_0000_0000 * Four(w, at + 4)
  {
    Value(w, at, 8);
    Value(w, at + 1, 7);
    Value(w, at + 2, 6);
    Value(w, at + 3, 5);
    FourBytes(w, at + 4);
  }

  // --------------------------------------------------- strings, packages

  /** 0x0D is a string up to its first zero byte, if the bytes before it are ASCII. */
  lemma StringData(c: Context, w: Bytes, cur: nat, room: nat, end: nat)
    requires c.table == SourceTable() && cur < end < |w| && w[cur] == 0x0D && room > 0
    requires w[end] == 0 && forall j :: cur < j < end ==> 0 < w[j] < 0x80
    ensures ConsumeTermArg(c, w, cur, room) == R(true, end + 1)
  {
    Alone(c, w, cur);
    AsciiTo(w, cur + 1, end);
    assert MatchString(c, w, cur) == R(true, end + 1);
    assert !MatchConstInteger(c, w, cur).0.ok && MatchConstInteger(c, w, cur).0.cur == cur;
    DataChosen(c, w, cur, room);
  }

  lemma {:induction false} AsciiTo(w: Bytes, cur: nat, end: nat)
    requires cur <= end < |w| && w[end] == 0 && forall j :: cur <= j < end ==> 0 < w[j] < 0x80
    ensures ConsumeAsciiZ(w, cur) == R(true, end + 1)
    decreases end - cur
  {
    if cur < end {
      AsciiTo(w, cur + 1, end);
    }
  }

  /** A package length is one byte below 0x40, or a byte with four low bits and one to three more bytes. */
  lemma PackageLengths(w: Bytes, cur: nat)
    requires cur < |w|
    ensures w[cur] < 0x40 ==> ConsumePackageLength(w, cur) == (R(true, cur + 1), w[cur])
    ensures 0x40 <= w[cur] < 0x80 && cur + 2 <= |w| ==>
              ConsumePackageLength(w, cur) == (R(true, cur + 2), Val(w, cur) % 0x10 + 0x10 * Val(w, cur + 1))
    ensures 0x80 <= w[cur] < 0xC0 && cur + 3 <= |w| ==>
              ConsumePackageLength(w, cur) ==
              (R(true, cur + 3), Val(w, cur) % 0x10 + 0x10 * Val(w, cur + 1) + 0x1000 * Val(w, cur + 2))
    ensures 0xC0 <= w[cur] && cur + 4 <= |w| ==>
              ConsumePackageLength(w, cur) ==
              (R(true, cur + 4),
               Val(w, cur) % 0x10 + 0x10 * Val(w, cur + 1) + 0x1000 * Val(w, cur + 2) + 0x10_0000 * Val(w, cur + 3))
    ensures ConsumePackageLength(w, cur).0.ok <==>
            cur + (if w[cur] < 0x40 then 1 else if w[cur] < 0x80 then 2 else if w[cur] < 0xC0 then 3 else 4) <= |w|
  {
    if w[cur] < 0x40 {
    } else if w[cur] < 0x80 {
      Extra(w, cur + 1, 1);
    } else if w[cur] < 0xC0 {
      Extra(w, cur + 1, 2);
    } else {
      Extra(w, cur + 1, 3);
    }
  }

  lemma Extra(w: Bytes, at: nat, n: nat)
    requires at <= |w| && 1 <= n <= 3
    ensures var (r, acc) := ConsumeExtra(w, at, n, 0);
            (r.ok <==> at + n <= |w|) &&
            (at + n <= |w| ==>
               r.cur == at + n &&
               acc == if n == 1 then w[at]
                      else if n == 2 then Val(w, at) + 0x100 * Val(w, at + 1)
                      else Val(w, at) + 0x100 * Val(w, at + 1) + 0x1_0000 * Val(w, at + 2))
  {
    if at < |w| {
      assert ConsumeExtra(w, at + 1, n, n).0.ok || n > 1;
      if n > 1 && at + 1 < |w| {
        assert n == 2 ==> ConsumeExtra(w, at + 2, n, 2) == (R(true, at + 2), 0);
        if n == 3 && at + 2 < |w| {
          assert ConsumeExtra(w, at + 3, n, 3) == (R(true, at + 3), 0);
        }
      }
    }
  }

  /** A buffer, 0x11, ends where its package length says, counted from its own first byte. */
  lemma BufferBytes(c: Context, w: Bytes, cur: nat, room: nat)
    requires c.table == SourceTable() && cur + 1 < |w| && room > 0 && w[cur] == 0x11
    requires ConsumePackageLength(w, cur + 1).0.ok && cur + 1 + ConsumePackageLength(w, cur + 1).1 <= |w|
    ensures ConsumeTermArg(c, w, cur, room) == R(true, cur + 1 + ConsumePackageLength(w, cur + 1).1)
  {
    Alone(c, w, cur);
    BufferPeeked(c, w, cur, room);
  }

  lemma BufferPeeked(c: Context, w: Bytes, cur: nat, room: nat)
    requires cur + 1 < |w| && room > 0 && Peeked(c, w, cur, 0x11)
    requires ConsumePackageLength(w, cur + 1).0.ok && cur + 1 + ConsumePackageLength(w, cur + 1).1 <= |w|
    ensures ConsumeTermArg(c, w, cur, room) == R(true, cur + 1 + ConsumePackageLength(w, cur + 1).1)
  {
    NoConstant(c, w, cur);
    BufferChosen(c, w, cur, room);
  }

  /** A package, 0x12, likewise; there is a count byte behind the length. */
  lemma PackageBytes(c: Context, w: Bytes, cur: nat, room: nat)
    requires c.table == SourceTable() && cur + 1 < |w| && room > 0 && w[cur] == 0x12
    requires var (r, n) := ConsumePackageLength(w, cur + 1);
             r.ok && r.cur < cur + 1 + n <= |w|
    ensures ConsumeTermArg(c, w, cur, room) == R(true, cur + 1 + ConsumePackageLength(w, cur + 1).1)
  {
    Alone(c, w, cur);
    PackagePeeked(c, w, cur, room);
  }

  lemma PackagePeeked(c: Context, w: Bytes, cur: nat, room: nat)
    requires cur + 1 < |w| && room > 0 && Peeked(c, w, cur, 0x12)
    requires var (r, n) := ConsumePackageLength(w, cur + 1);
             r.ok && r.cur < cur + 1 + n <= |w|
    ensures ConsumeTermArg(c, w, cur, room) == R(true, cur + 1 + ConsumePackageLength(w, cur + 1).1)
  {
    NoConstant(c, w, cur);
    PackageChosen(c, w, cur, room);
  }

  /** A variable package, 0x13, likewise, if the window goes on after it. */
  lemma VarPackageBytes(c: Context, w: Bytes, cur: nat, room: nat)
    requires c.table == SourceTable() && cur + 1 < |w| && room > 0 && w[cur] == 0x13
    requires ConsumePackageLength(w, cur + 1).0.ok && cur + 1 + ConsumePackageLength(w, cur + 1).1 < |w|
    ensures ConsumeTermArg(c, w, cur, room) == R(true, cur + 1 + ConsumePackageLength(w, cur + 1).1)
  {
    Alone(c, w, cur);
    VarPackagePeeked(c, w, cur, room);
  }

  lemma VarPackagePeeked(c: Context, w: Bytes, cur: nat, room: nat)
    requires cur + 1 < |w| && room > 0 && Peeked(c, w, cur, 0x13)
    requires ConsumePackageLength(w, cur + 1).0.ok && cur + 1 + ConsumePackageLength(w, cur + 1).1 < |w|
    ensures ConsumeTermArg(c, w, cur, room) == R(true, cur + 1 + ConsumePackageLength(w, cur + 1).1)
  {
    NoConstant(c, w, cur);
    PackageChosen(c, w, cur, room);
  }

  lemma NoConstant(c: Context, w: Bytes, cur: nat)
    requires cur < |w| && PeekOpcode(c, w, cur).Some? && 0x11 <= PeekOpcode(c, w, cur).value.id <= 0x13
    ensures MatchConstInteger(c, w, cur).0 == R(false, cur)
  {
  }

  lemma BufferChosen(c: Context, w: Bytes, cur: nat, room: nat)
    requires cur < |w| && room > 0 && MatchConstInteger(c, w, cur).0 == R(false, cur)
    requires PeekOpcode(c, w, cur).Some? && PeekOpcode(c, w, cur).value.id == 0x11
    ensures MatchBuffer(c, w, cur).ok ==> ConsumeTermArg(c, w, cur, room) == MatchBuffer(c, w, cur)
  {
    if MatchBuffer(c, w, cur).ok {
      DataChosen(c, w, cur, room);
    }
  }

  lemma PackageChosen(c: Context, w: Bytes, cur: nat, room: nat)
    requires cur < |w| && room > 0 && MatchConstInteger(c, w, cur).0 == R(false, cur)
    requires PeekOpcode(c, w, cur).Some?
    requires PeekOpcode(c, w, cur).value.id == 0x12 || PeekOpcode(c, w, cur).value.id == 0x13
    ensures PeekOpcode(c, w, cur).value.id == 0x12 && MatchPackage(c, w, cur).ok ==>
              ConsumeTermArg(c, w, cur, room) == MatchPackage(c, w, cur)
    ensures PeekOpcode(c, w, cur).value.id == 0x13 && MatchVarPackage(c, w, cur).ok ==>
              ConsumeTermArg(c, w, cur, room) == MatchVarPackage(c, w, cur)
  {
    assert MatchComputational(c, w, cur) == R(false, cur);
    if MatchDataObject(c, w, cur).ok {
      DataChosen(c, w, cur, room);
    }
  }

  // ---------------------------------------------- locals, args, revision

  /** 0x60 to 0x67 are the locals and 0x68 to 0x6E the arguments. */
  lemma LocalsAndArgs(c: Context, w: Bytes, cur: nat, room: nat)
    requires c.table == SourceTable() && cur < |w| && 0x60 <= w[cur] <= 0x6E && room > 0
    ensures ConsumeTermArg(c, w, cur, room) == R(true, cur + 1)
    ensures MatchLocalObj(c, w, cur).ok <==> w[cur] <= 0x67
    ensures MatchArgObj(c, w, cur).ok <==> w[cur] >= 0x68
  {
    Alone(c, w, cur);
    LocalPeeked(c, w, cur, room);
  }

  lemma LocalPeeked(c: Context, w: Bytes, cur: nat, room: nat)
    requires cur < |w| && 0x60 <= w[cur] <= 0x6E && room > 0 && Peeked(c, w, cur, w[cur])
    ensures ConsumeTermArg(c, w, cur, room) == R(true, cur + 1)
    ensures MatchLocalObj(c, w, cur).ok <==> w[cur] <= 0x67
    ensures MatchArgObj(c, w, cur).ok <==> w[cur] >= 0x68
  {
    assert MatchDataObject(c, w, cur) == R(false, cur);
  }

  /** 0x5B 0x30, the revision, is matched and not consumed. */
  lemma Revision(c: Context, w: Bytes, cur: nat, room: nat)
    requires c.table == SourceTable() && cur + 1 < |w| && w[cur] == 0x5B && w[cur + 1] == 0x30 && room > 0
    ensures ConsumeTermArg(c, w, cur, room) == R(true, cur)
  {
    TwoBytes(c, w, cur);
    assert 0x30 in Extended();
    assert MatchConstInteger(c, w, cur).0 == R(false, cur);
    DataChosen(c, w, cur, room);
  }

  lemma TwoBytes(c: Context, w: Bytes, cur: nat)
    requires c.table == SourceTable() && cur + 1 < |w| && w[cur] == 0x5B && w[cur + 1] in Extended()
    ensures PeekOpcode(c, w, cur) == Some(Opcode(0x5B + 256 * w[cur + 1] as nat, true, Extended()[w[cur + 1]]))
  {
    assert EXT_OP_PREFIX in SourceTable();
  }

  // ---------------------------------------------------------------- names

  /** A letter from A to Z, or an underscore. */
  predicate Leads(b: byte) {
    0x41 <= b <= 0x5A || b == 0x5F
  }

  /** n segments of four bytes from at on, each with a leading letter. */
  predicate SegmentsAt(w: Bytes, at: nat, n: nat) {
    at + 4 * n <= |w| && forall i :: 0 <= i < n ==> Leads(w[at + 4 * i])
  }

  function Segments(w: Bytes, at: nat, n: nat): seq<Bytes>
    requires at + 4 * n <= |w|
  {
    seq(n, i requires 0 <= i < n => w[at + 4 * i..at + 4 * i + 4])
  }

  lemma {:induction false} SegmentsRead(w: Bytes, at: nat, n: nat)
    requires SegmentsAt(w, at, n)
    ensures ConsumeSegments(w, at, n) == (R(true, at + 4 * n), Segments(w, at, n))
    decreases n
  {
    if n > 0 {
      assert Leads(w[at + 4 * 0]);
      forall i | 0 <= i < n - 1 ensures Leads(w[(at + 4) + 4 * i]) {
        assert Leads(w[at + 4 * (i + 1)]);
      }
      SegmentsRead(w, at + 4, n - 1);
      SegmentsSplit(w, at, n);
    }
  }

  lemma SegmentsSplit(w: Bytes, at: nat, n: nat)
    requires n > 0 && at + 4 * n <= |w|
    ensures Segments(w, at, n) == [w[at..at + 4]] + Segments(w, at + 4, n - 1)
  {
  }

  lemma NoPrefix(w: Bytes, cur: nat)
    requires cur < |w| && w[cur] != 0x5C && w[cur] != 0x5E
    ensures var (r, segments) := ConsumeNamePath(w, cur);
            ConsumeNameString(w, cur) == (r, Name([], segments))
  {
    assert PrefixEnd(w, cur, 0) == R(true, cur) && w[cur..cur] == [];
  }

  /** One segment; 0x2E and two; 0x2F, a count and as many; 0x00 and none. */
  lemma NamePathBytes(w: Bytes, cur: nat)
    requires cur < |w|
    ensures Leads(w[cur]) && cur + 4 <= |w| ==>
              ConsumeNameString(w, cur) == (R(true, cur + 4), Name([], [w[cur..cur + 4]]))
    ensures w[cur] == 0x2E && SegmentsAt(w, cur + 1, 2) ==>
              ConsumeNameString(w, cur) ==
              (R(true, cur + 9), Name([], [w[cur + 1..cur + 5], w[cur + 5..cur + 9]]))
    ensures w[cur] == 0x2F && cur + 1 < |w| && SegmentsAt(w, cur + 2, w[cur + 1]) ==>
              ConsumeNameString(w, cur) ==
              (R(true, cur + 2 + 4 * Val(w, cur + 1)), Name([], Segments(w, cur + 2, Val(w, cur + 1))))
    ensures w[cur] == 0x00 ==> ConsumeNameString(w, cur) == (R(true, cur + 1), Name([], []))
  {
    if w[cur] != 0x5C && w[cur] != 0x5E {
      NoPrefix(w, cur);
      if Leads(w[cur]) && cur + 4 <= |w| {
        assert w[cur + 4 * 0] == w[cur];
        SegmentsRead(w, cur, 1);
        assert Segments(w, cur, 1) == [w[cur..cur + 4]];
      } else if w[cur] == 0x2E && SegmentsAt(w, cur + 1, 2) {
        SegmentsRead(w, cur + 1, 2);
        assert Segments(w, cur + 1, 2) == [w[cur + 1..cur + 5], w[cur + 5..cur + 9]];
      } else if w[cur] == 0x2F && cur + 1 < |w| && SegmentsAt(w, cur + 2, w[cur + 1]) {
        SegmentsRead(w, cur + 2, w[cur + 1]);
      }
    }
  }

  /** Up to fifteen prefix characters, 0x5C or 0x5E each, stand before the path. */
  lemma PrefixedName(w: Bytes, cur: nat, k: nat)
    requires cur + k < |w| && k <= 15 && w[cur + k] != 0x5C && w[cur + k] != 0x5E
    requires forall j :: cur <= j < cur + k ==> w[j] == 0x5C || w[j] == 0x5E
    ensures var (r, name) := ConsumeNameString(w, cur + k);
            r.ok ==> ConsumeNameString(w, cur) == (r, Name(w[cur..cur + k], name.segments))
  {
    PrefixTo(w, cur, k, 0);
    PrefixTo(w, cur + k, 0, 0);
  }

  lemma {:induction false} PrefixTo(w: Bytes, cur: nat, k: nat, count: nat)
    requires cur + k < |w| && count + k <= 15 && w[cur + k] != 0x5C && w[cur + k] != 0x5E
    requires forall j :: cur <= j < cur + k ==> w[j] == 0x5C || w[j] == 0x5E
    ensures PrefixEnd(w, cur, count) == R(true, cur + k)
    decreases k
  {
    if k > 0 {
      PrefixTo(w, cur + 1, k - 1, count + 1);
    }
  }

  /** Where a term begins with a name, the arguments of its method follow, each a term. */
  lemma NameTerm(c: Context, w: Bytes, cur: nat, room: nat)
    requires c.table == SourceTable() && cur < |w| && room > 0
    requires Leads(w[cur]) || w[cur] == 0x2E || w[cur] == 0x2F || w[cur] == 0x5C || w[cur] == 0x5E
    requires ConsumeNameString(w, cur).0.ok
    ensures var (r, name) := ConsumeNameString(w, cur);
            var n := if name in c.methods then c.methods[name] else 0;
            (n == 0 ==> ConsumeTermArg(c, w, cur, room) == r) &&
            (n > 0 ==> ConsumeTermArg(c, w, cur, room) == ConsumeTermArgs(c, w, r.cur, room - 1, n))
  {
    Alone(c, w, cur);
    var (r, name) := ConsumeNameString(w, cur);
    SkipTheorem.TermArgIsName(c, w, cur, room, r.cur, name);
    assert ConsumeTermArgs(c, w, r.cur, room - 1, 0) == R(true, r.cur);
  }

  /** Terms in a row: one, and then the others from where it ends. */
  lemma TermsInRow(c: Context, w: Bytes, cur: nat, room: nat, n: nat)
    requires cur <= |w| && n > 0
    ensures var first := ConsumeTermArg(c, w, cur, room);
            ConsumeTermArgs(c, w, cur, room, n) ==
            if !first.ok || n == 1 then first else ConsumeTermArgs(c, w, first.cur, room, n - 1)
  {
    if n == 1 && ConsumeTermArg(c, w, cur, room).ok {
      assert ConsumeTermArgs(c, w, ConsumeTermArg(c, w, cur, room).cur, room, 0) ==
             R(true, ConsumeTermArg(c, w, cur, room).cur);
    }
  }

  // ------------------------------------------------------------ operators

  /** An operator of one byte is skipped with its arguments. */
  lemma OperatorTerm(c: Context, w: Bytes, cur: nat, room: nat)
    requires c.table == SourceTable() && cur < |w| && room > 1 && IsOperator(w[cur]) && w[cur] != 0x92
    ensures ConsumeTermArg(c, w, cur, room) == ConsumeArgs(c, w, cur + 1, cur + 1, room - 2, OperatorArgs(w[cur]))
  {
    Alone(c, w, cur);
    SkipTheorem.TermArgIsExpression(c, w, cur, room);
    SkipTheorem.ExpressionIsOp(c, w, cur, room - 1, Opcode(w[cur], false, OneByteInfo(w[cur])));
  }

  /** 0x92 is LNot with one term, unless a comparison follows it: then they are one operator with two terms. */
  lemma NotTerm(c: Context, w: Bytes, cur: nat, room: nat)
    requires c.table == SourceTable() && cur + 1 < |w| && w[cur] == 0x92 && room > 1
    ensures ConsumeTermArg(c, w, cur, room) ==
            if 0x93 <= w[cur + 1] <= 0x95 then ConsumeArgs(c, w, cur + 2, cur + 2, room - 2, [TermArgArg, TermArgArg])
            else ConsumeArgs(c, w, cur + 1, cur + 1, room - 2, [TermArgArg])
  {
    NotPeeked(c, w, cur);
    SkipTheorem.TermArgIsExpression(c, w, cur, room);
    SkipTheorem.ExpressionIsOp(c, w, cur, room - 1, PeekOpcode(c, w, cur).value);
  }

  lemma NotPeeked(c: Context, w: Bytes, cur: nat)
    requires c.table == SourceTable() && cur + 1 < |w| && w[cur] == 0x92
    ensures PeekOpcode(c, w, cur) ==
            Some(if 0x93 <= w[cur + 1] <= 0x95
                 then Opcode(0x92 + 256 * w[cur + 1] as nat, true, OpInfo(true, [TermArgArg, TermArgArg], false))
                 else Opcode(0x92, false, OpInfo(true, [TermArgArg], false)))
  {
    OperatorShapes();
    assert LNOT_OP in SourceTable();
  }

  /** An operator behind 0x5B is skipped with its arguments. */
  lemma ExtendedTerm(c: Context, w: Bytes, cur: nat, room: nat)
    requires c.table == SourceTable() && cur + 1 < |w| && w[cur] == 0x5B && IsExtendedOperator(w[cur + 1]) && room > 1
    ensures ConsumeTermArg(c, w, cur, room) ==
            ConsumeArgs(c, w, cur + 2, cur + 2, room - 2, ExtendedArgs(w[cur + 1]))
  {
    assert w[cur + 1] in Extended();
    TwoBytes(c, w, cur);
    SkipTheorem.TermArgIsExpression(c, w, cur, room);
    SkipTheorem.ExpressionIsOp(c, w, cur, room - 1, PeekOpcode(c, w, cur).value);
  }

  /** A statement is no term. */
  lemma StatementRefused(c: Context, w: Bytes, cur: nat, room: nat)
    requires c.table == SourceTable() && cur < |w| && IsStatement(w[cur])
    ensures !ConsumeTermArg(c, w, cur, room).ok
  {
    Alone(c, w, cur);
    if room > 0 {
      SkipTheorem.TermArgIsExpression(c, w, cur, room);
      assert PrefixEnd(w, cur, 0) == R(true, cur);
    }
  }

  /** Subtract and its like: two terms and a target. */
  lemma BinaryTerm(c: Context, w: Bytes, cur: nat, room: nat)
    requires c.table == SourceTable() && cur < |w| && room > 2
    requires w[cur] == 0x72 || w[cur] == 0x74 || w[cur] == 0x77 || w[cur] == 0x7B || w[cur] == 0x7D || w[cur] == 0x7F
    ensures var a := ConsumeTermArg(c, w, cur + 1, room - 2);
            a.ok ==>
              var b := ConsumeTermArg(c, w, a.cur, room - 2);
              b.ok ==> ConsumeTermArg(c, w, cur, room) == ConsumeArg(c, w, cur + 1, b.cur, room - 2, TargetArg)
  {
    OperatorTerm(c, w, cur, room);
    OperatorShapes();
    TwoTermsThen(c, w, cur + 1, room - 2, TargetArg);
  }

  lemma TwoTermsThen(c: Context, w: Bytes, cur: nat, room: nat, last: ArgType)
    requires cur <= |w| && !last.AsciiCharListArg?
    ensures var a := ConsumeTermArg(c, w, cur, room);
            a.ok ==>
              var b := ConsumeTermArg(c, w, a.cur, room);
              b.ok ==> ConsumeArgs(c, w, cur, cur, room, [TermArgArg, TermArgArg, last]) ==
                       ConsumeArg(c, w, cur, b.cur, room, last)
  {
    var a := ConsumeTermArg(c, w, cur, room);
    FirstOfArgs(c, w, cur, cur, room, [TermArgArg, TermArgArg, last]);
    assert [TermArgArg, TermArgArg, last][1..] == [TermArgArg, last] && [TermArgArg, last][1..] == [last];
    if a.ok {
      var b := ConsumeTermArg(c, w, a.cur, room);
      FirstOfArgs(c, w, cur, a.cur, room, [TermArgArg, last]);
      if b.ok {
        FirstOfArgs(c, w, cur, b.cur, room, [last]);
        NoneOfArgs(c, w, cur, ConsumeArg(c, w, cur, b.cur, room, last).cur, room);
      }
    }
  }

  /** Arguments are skipped one after the other, each from where the one before ends. */
  lemma FirstOfArgs(c: Context, w: Bytes, start: nat, cur: nat, room: nat, args: seq<ArgType>)
    requires start <= cur <= |w| && args != [] && !args[0].AsciiCharListArg?
    ensures ConsumeArg(c, w, start, cur, room, TermArgArg) == ConsumeTermArg(c, w, cur, room)
    ensures var r := ConsumeArg(c, w, start, cur, room, args[0]);
            ConsumeArgs(c, w, start, cur, room, args) ==
            if r.ok then ConsumeArgs(c, w, start, r.cur, room, args[1..]) else r
  {
  }

  lemma NoneOfArgs(c: Context, w: Bytes, start: nat, cur: nat, room: nat)
    requires start <= cur <= |w|
    ensures ConsumeArgs(c, w, start, cur, room, []) == R(true, cur)
  {
  }

  /** What each kind of argument takes. */
  lemma ArgumentBytes(c: Context, w: Bytes, start: nat, cur: nat, room: nat)
    requires start <= cur < |w|
    ensures ConsumeArg(c, w, start, cur, room, ByteDataArg) == R(true, cur + 1)
    ensures cur + 2 <= |w| ==> ConsumeArg(c, w, start, cur, room, WordDataArg) == R(true, cur + 2)
    ensures cur + 4 <= |w| ==> ConsumeArg(c, w, start, cur, room, DWordDataArg) == R(true, cur + 4)
    ensures cur + 8 <= |w| ==> ConsumeArg(c, w, start, cur, room, QWordDataArg) == R(true, cur + 8)
    ensures cur + 4 <= |w| ==> ConsumeArg(c, w, start, cur, room, NameSegArg) == R(true, cur + 4)
    ensures ConsumeArg(c, w, start, cur, room, NullCharArg).ok <==> w[cur] == 0
    ensures w[cur] == 0 ==> ConsumeArg(c, w, start, cur, room, TargetArg) == R(true, cur + 1)
    ensures w[cur] == 0 ==> ConsumeArg(c, w, start, cur, room, NullCharArg) == R(true, cur + 1)
  {
  }

  /** A local or an argument as a target or another SuperName is matched and not consumed; 0x5B 0x31 is Debug. */
  lemma SuperNameBytes(c: Context, w: Bytes, cur: nat, room: nat, invoke: bool)
    requires c.table == SourceTable() && cur < |w|
    ensures 0x60 <= w[cur] <= 0x6E ==> ConsumeSuperName(c, w, cur, room, invoke) == R(true, cur)
    ensures w[cur] == 0x5B && cur + 1 < |w| && w[cur + 1] == 0x31 ==>
              ConsumeSuperName(c, w, cur, room, invoke) == R(true, cur + 2)
  {
    if 0x60 <= w[cur] <= 0x6E {
      Alone(c, w, cur);
    } else if w[cur] == 0x5B && cur + 1 < |w| && w[cur + 1] == 0x31 {
      assert 0x31 in Extended();
      TwoBytes(c, w, cur);
    }
  }
}
