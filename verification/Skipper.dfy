/**
 The decoder state and its consuming methods (src/aml_decoder.c), each proved to
 move the cursor exactly as the functions of module Decoder say, whose only inputs
 are the bytes below length.  On every exit, success or failure, the cursor is still
 inside the window and the recursion depth is what it was.
 */
module Skipper {
  import opened Bits
  import opened Decoder
  import D = Decoder
  import opened Folding

  /** One more byte of a package length. */
  lemma ExtraStep(acc: nat, b: byte, rest: nat, n: nat, next: nat)
    requires acc < ShiftLeft(1, n) && next == n + 8
    ensures Or(acc, ShiftLeft(b, n)) < ShiftLeft(1, next)
    ensures Or(acc, ShiftLeft(b, n)) + ShiftLeft(rest, next) == acc + ShiftLeft(b + 256 * rest, n)
  {
    OrAdds(acc, b, n);
    ShiftLeft8(rest);
    ShiftLeftTwice(rest, 8, n);
    ShiftLeftAdds(b, 256 * rest, n);
    ShiftLeft8(1);
    ShiftLeftTwice(1, 8, n);
    ShiftLeftAdds(b + 1, 255 - b, n);
    ShiftLeftAdds(b, 1, n);
  }

  /** The bytes read so far, and what the bytes still to come add to them n bits further up. */
  ghost predicate Accumulated(whole: (R, nat), rest: (R, nat), acc: nat, n: nat) {
    whole.0 == rest.0 && (whole.0.ok ==> whole.1 == acc + ShiftLeft(rest.1, n))
  }

  lemma SameSlice(data: Bytes, length: nat, lo: nat, hi: nat)
    requires lo <= hi <= length <= |data|
    ensures data[..length][lo..hi] == data[lo..hi]
  {
  }

  lemma AppendOne<T>(a: seq<T>, x: T, b: seq<T>)
    ensures (a + [x]) + b == a + ([x] + b)
  {
  }

  /** The segments read so far, and those still to come. */
  ghost predicate SegmentsLeft(whole: (R, seq<Bytes>), rest: (R, seq<Bytes>), done: seq<Bytes>) {
    whole.0 == rest.0 && (whole.0.ok ==> done + rest.1 == whole.1)
  }

  /** Skipping n more TermArgs from cur ends as whole says. */
  ghost predicate Remaining(c: Context, w: Bytes, cur: nat, room: nat, n: nat, whole: R)
    requires cur <= |w|
  {
    forall key :: Open(TERMS, key) ==> D.ConsumeTermArgs(c, w, cur, room, n) == whole
  }

  lemma RemainingStart(c: Context, w: Bytes, cur: nat, room: nat, n: nat)
    requires cur <= |w|
    ensures Remaining(c, w, cur, room, n, D.ConsumeTermArgs(c, w, cur, room, n))
  {
  }

  lemma RemainingStep(c: Context, w: Bytes, cur: nat, room: nat, n: nat, whole: R, first: R)
    requires cur <= |w| && n > 0 && Remaining(c, w, cur, room, n, whole)
    requires first == D.ConsumeTermArg(c, w, cur, room)
    ensures !first.ok ==> whole == first
    ensures first.ok ==> Remaining(c, w, first.cur, room, n - 1, whole)
  {
    assert Open(TERMS, 0);
  }

  lemma RemainingEnd(c: Context, w: Bytes, cur: nat, room: nat, whole: R)
    requires cur <= |w| && Remaining(c, w, cur, room, 0, whole)
    ensures whole == R(true, cur)
  {
    assert Open(TERMS, 0);
  }

  class Skipper {
    const ctx: Context
    const data: Bytes
    const maxDepth: nat
    var length: nat
    var cursor: nat
    var depth: nat

    ghost predicate Valid()
      reads this
    {
      cursor <= length <= |data|
    }

    /** The bytes below the end of the window. */
    ghost function Window(): Bytes
      requires Valid()
      reads this
    {
      data[..length]
    }

    /** The recursion depth still available. */
    ghost function Room(): nat
      reads this
    {
      if depth >= maxDepth then 0 else maxDepth - depth
    }

    constructor (ctx: Context, data: Bytes, maxDepth: nat)
      ensures Valid() && this.ctx == ctx && this.data == data && this.maxDepth == maxDepth
      ensures cursor == 0 && length == |data| && depth == 0
    {
      this.ctx, this.data, this.maxDepth := ctx, data, maxDepth;
      length, cursor, depth := |data|, 0, 0;
    }

    // ------------------------------------------------------------ bytes

    method PeekByte(lookahead: nat) returns (b: Option<byte>)
      requires Valid()
      ensures b == if cursor + lookahead < length then Some(Window()[cursor + lookahead]) else None
    {
      if cursor >= length || lookahead >= length - cursor {
        return None;
      }
      return Some(data[cursor + lookahead]);
    }

    method ConsumeByte() returns (ok: bool, b: byte)
      requires Valid()
      modifies `cursor
      ensures Valid() && R(ok, cursor) == D.ConsumeByte(Window(), old(cursor))
      ensures ok ==> b == Window()[old(cursor)]
    {
      if cursor >= length {
        return false, 0;
      }
      b := data[cursor];
      cursor := cursor + 1;
      return true, b;
    }

    method ConsumeSpan(n: nat) returns (ok: bool)
      requires Valid()
      modifies `cursor
      ensures Valid() && R(ok, cursor) == D.ConsumeSpan(Window(), old(cursor), n)
    {
      if cursor >= length || n > length - cursor {
        return false;
      }
      cursor := cursor + n;
      return true;
    }

    method MatchByte(expected: byte) returns (ok: bool)
      requires Valid()
      modifies `cursor
      ensures Valid() && R(ok, cursor) == D.MatchByte(Window(), old(cursor), expected)
    {
      var peek := PeekByte(0);
      if peek == None {
        return false;
      } else if peek.value == expected {
        var got, _ := ConsumeByte();
        return got;
      }
      return false;
    }

    // ---------------------------------------------------------- opcodes

    method PeekOpcode() returns (o: Option<Opcode>)
      requires Valid()
      ensures o == D.PeekOpcode(ctx, Window(), cursor)
    {
      var l1 := PeekByte(0);
      if l1 == None || l1.value !in ctx.table {
        return None;
      }
      var entry := ctx.table[l1.value];
      if entry.sub == None {
        return Some(Opcode(l1.value, false, entry.info));
      }
      var l2 := PeekByte(1);
      if l2 == None {
        return None;
      }
      var sub := entry.sub.value;
      if l2.value in sub.entries {
        return Some(Opcode(l1.value + 256 * l2.value, true, sub.entries[l2.value]));
      }
      return if sub.isOptional then Some(Opcode(l1.value, false, entry.info)) else None;
    }

    method ConsumeOpcode() returns (o: Option<Opcode>)
      requires Valid()
      modifies `cursor
      ensures Valid() && R(o.Some?, cursor) == D.ConsumeOpcode(ctx, Window(), old(cursor))
      ensures o == D.PeekOpcode(ctx, Window(), old(cursor))
    {
      o := PeekOpcode();
      if o.None? {
        return;
      }
      var _, _ := ConsumeByte();
      if o.value.isTwoByte {
        var _, _ := ConsumeByte();
      }
    }

    method MatchOpcode(id: nat) returns (ok: bool)
      requires Valid()
      modifies `cursor
      ensures Valid() && R(ok, cursor) == D.MatchOpcode(ctx, Window(), old(cursor), id)
    {
      var o := PeekOpcode();
      if o == None || o.value.id != id {
        return false;
      }
      o := ConsumeOpcode();
      return o.Some?;
    }

    method MatchRange(lo: nat, hi: nat) returns (ok: bool)
      requires Valid()
      modifies `cursor
      ensures Valid() && R(ok, cursor) == D.MatchRange(ctx, Window(), old(cursor), lo, hi)
    {
      var o := PeekOpcode();
      if o == None || !(lo <= o.value.id <= hi) {
        return false;
      }
      o := ConsumeOpcode();
      return true;
    }

    // ----------------------------------------------------- data objects

    method ConsumeAsciiZ() returns (ok: bool)
      requires Valid()
      modifies `cursor
      ensures Valid() && R(ok, cursor) == D.ConsumeAsciiZ(Window(), old(cursor))
    {
      while true
        invariant Valid()
        invariant D.ConsumeAsciiZ(Window(), cursor) == D.ConsumeAsciiZ(Window(), old(cursor))
        decreases length - cursor
      {
        var got, b := ConsumeByte();
        if !got {
          return false;
        } else if b == 0 {
          return true;
        } else if b > 0x7F {
          return false;
        }
      }
    }

    method ConsumePackageLength() returns (ok: bool, n: nat)
      requires Valid()
      modifies `cursor
      ensures Valid() && R(ok, cursor) == D.ConsumePackageLength(Window(), old(cursor)).0
      ensures ok ==> n == D.ConsumePackageLength(Window(), old(cursor)).1
    {
      var first;
      ok, first := ConsumeByte();
      if !ok {
        return false, 0;
      }
      var acc;
      ok, acc := ConsumeExtra(first / 64);
      if !ok {
        return false, 0;
      }
      n := JoinLength(first, acc);
    }

    /** The first byte of a package length and the value of its extra bytes, put together. */
    method JoinLength(first: nat, acc: nat) returns (n: nat)
      requires first / 64 == 0 ==> acc == 0
      ensures n == (if first / 64 == 0 then first % 64 else first % 16) + 16 * acc
    {
      var low := if first / 64 == 0 then first % 64 else first % 16;
      PackageLengthOr(low, acc, first / 64);
      return Or(low, ShiftLeft(acc, 4));
    }

    /** The loop over the extra bytes of a package length. */
    method ConsumeExtra(count: nat) returns (ok: bool, acc: nat)
      requires Valid()
      modifies `cursor
      ensures Valid() && R(ok, cursor) == D.ConsumeExtra(Window(), old(cursor), count, 0).0
      ensures ok ==> acc == D.ConsumeExtra(Window(), old(cursor), count, 0).1
    {
      acc := 0;
      var i := 0;
      while i < count
        invariant Valid() && i <= count && acc < ShiftLeft(1, 8 * i)
        invariant Accumulated(D.ConsumeExtra(Window(), old(cursor), count, 0),
                              D.ConsumeExtra(Window(), cursor, count, i), acc, 8 * i)
      {
        var got;
        got, acc := ConsumeExtraByte(count, i, acc, D.ConsumeExtra(Window(), old(cursor), count, 0));
        if !got {
          return false, 0;
        }
        i := i + 1;
      }
      ShiftZero(8 * i);
      return true, acc;
    }

    /** One extra byte; whole is what the loop has to produce. */
    method ConsumeExtraByte(count: nat, i: nat, acc: nat, ghost whole: (R, nat)) returns (ok: bool, newAcc: nat)
      requires Valid() && i < count && acc < ShiftLeft(1, 8 * i)
      requires Accumulated(whole, D.ConsumeExtra(Window(), cursor, count, i), acc, 8 * i)
      modifies `cursor
      ensures Valid() && (!ok ==> whole.0 == R(false, cursor))
      ensures ok ==> newAcc < ShiftLeft(1, 8 * (i + 1))
      ensures ok ==> Accumulated(whole, D.ConsumeExtra(Window(), cursor, count, i + 1), newAcc, 8 * (i + 1))
    {
      var b;
      ok, b := ConsumeByte();
      if !ok {
        return false, 0;
      }
      ExtraStep(acc, b, D.ConsumeExtra(Window(), cursor, count, i + 1).1, 8 * i, 8 * (i + 1));
      newAcc := Or(acc, ShiftLeft(b, i * 8));
    }

    /** AmlDecoderMatchConstIntegerData. */
    method MatchConstInteger() returns (ok: bool, value: nat)
      requires Valid()
      modifies `cursor
      ensures Valid() && R(ok, cursor) == D.MatchConstInteger(ctx, Window(), old(cursor)).0
      ensures ok ==> value == D.MatchConstInteger(ctx, Window(), old(cursor)).1
    {
      var o := PeekOpcode();
      if o == None {
        return false, 0;
      }
      var id := o.value.id;
      if id != ZERO_OP && id != ONE_OP && id != ONES_OP && SizeOfConst(id) == 0 {
        return false, 0;
      }
      o := ConsumeOpcode();
      if id == ZERO_OP || id == ONE_OP || id == ONES_OP {
        return true, if id == ZERO_OP then 0 else if id == ONE_OP then 1 else Pow2(64) - 1;
      }
      ok, value := ConsumeConst(SizeOfConst(id));
    }

    /** ByteData, WordData, DWordData or QWordData: the bytes, and the integer they spell. */
    method ConsumeConst(n: nat) returns (ok: bool, value: nat)
      requires Valid()
      modifies `cursor
      ensures Valid() && R(ok, cursor) == D.ConstData(Window(), old(cursor), n).0
      ensures ok ==> value == D.ConstData(Window(), old(cursor), n).1
    {
      var start := cursor;
      ok := ConsumeSpan(n);
      if !ok {
        return false, 0;
      }
      value := FromLE(data[start..start + n]);
      SameSlice(data, length, start, start + n);
    }

    method MatchString() returns (ok: bool)
      requires Valid()
      modifies `cursor
      ensures Valid() && R(ok, cursor) == D.MatchString(ctx, Window(), old(cursor))
    {
      ok := MatchOpcode(STRING_PREFIX);
      if ok {
        ok := ConsumeAsciiZ();
      }
    }

    method MatchBuffer() returns (ok: bool)
      requires Valid()
      modifies `cursor
      ensures Valid() && R(ok, cursor) == D.MatchBuffer(ctx, Window(), old(cursor))
    {
      ok := MatchOpcode(BUFFER_OP);
      if !ok {
        return false;
      }
      var start := cursor;
      var n;
      ok, n := ConsumePackageLength();
      if !ok || start >= length || n > length - start {
        return false;
      }
      cursor := start + n;
    }

    method MatchPackage() returns (ok: bool)
      requires Valid()
      modifies `cursor
      ensures Valid() && R(ok, cursor) == D.MatchPackage(ctx, Window(), old(cursor))
    {
      ok := MatchOpcode(PACKAGE_OP);
      if !ok {
        return false;
      }
      var start := cursor;
      var n;
      ok, n := ConsumePackageLength();
      if !ok || start >= length || n > length - start {
        return false;
      }
      var count;
      ok, count := ConsumeByte();
      if !ok || n < cursor - start {
        return false;
      }
      cursor := start + n;
    }

    method MatchVarPackage() returns (ok: bool)
      requires Valid()
      modifies `cursor
      ensures Valid() && R(ok, cursor) == D.MatchVarPackage(ctx, Window(), old(cursor))
    {
      ok := MatchOpcode(VAR_PACKAGE_OP);
      if !ok {
        return false;
      }
      var start := cursor;
      var n;
      ok, n := ConsumePackageLength();
      if !ok || start >= length || n >= length - start {
        return false;
      }
      cursor := start + n;
    }

    method MatchComputational() returns (ok: bool)
      requires Valid()
      modifies `cursor
      ensures Valid() && R(ok, cursor) == D.MatchComputational(ctx, Window(), old(cursor))
    {
      var value;
      ok, value := MatchConstInteger();
      if ok {
        return true;
      }
      var o := PeekOpcode();
      if o == None {
        return false;
      }
      if o.value.id == STRING_PREFIX {
        ok := MatchString();
      } else if o.value.id == REVISION_OP {
        ok := true;
      } else if o.value.id == BUFFER_OP {
        ok := MatchBuffer();
      }
    }

    method MatchDataObject() returns (ok: bool)
      requires Valid()
      modifies `cursor
      ensures Valid() && R(ok, cursor) == D.MatchDataObject(ctx, Window(), old(cursor))
    {
      ok := MatchComputational();
      if !ok {
        ok := MatchPackage();
        if !ok {
          ok := MatchVarPackage();
        }
      }
    }

    // ------------------------------------------------------------ names

    /** The prefix loop of AmlDecoderConsumeNameString. */
    method ConsumePrefix() returns (ok: bool, prefix: Bytes)
      requires Valid()
      modifies `cursor
      ensures Valid() && R(ok, cursor) == D.PrefixEnd(Window(), old(cursor), 0)
      ensures prefix == Window()[old(cursor)..cursor]
    {
      prefix := [];
      while true
        invariant Valid() && cursor == old(cursor) + |prefix| && prefix == Window()[old(cursor)..cursor]
        invariant D.PrefixEnd(Window(), cursor, |prefix|) == D.PrefixEnd(Window(), old(cursor), 0)
        decreases length - cursor
      {
        var b := PeekByte(0);
        if b == None {
          return false, prefix;
        }
        if |prefix| >= NAME_MAX_PREFIX_COUNT {
          return false, prefix;
        }
        if b.value != ROOT_CHAR && b.value != PARENT_CHAR {
          return true, prefix;
        }
        var _, _ := ConsumeByte();
        prefix := prefix + [b.value];
      }
    }

    /** The segment loop of AmlDecoderConsumeNameString. */
    method ConsumeSegments(n: nat) returns (ok: bool, segments: seq<Bytes>)
      requires Valid()
      modifies `cursor
      ensures Valid() && R(ok, cursor) == D.ConsumeSegments(Window(), old(cursor), n).0
      ensures ok ==> segments == D.ConsumeSegments(Window(), old(cursor), n).1
    {
      segments := [];
      var i := 0;
      while i < n
        invariant Valid() && i <= n
        invariant SegmentsLeft(D.ConsumeSegments(Window(), old(cursor), n), D.ConsumeSegments(Window(), cursor, n - i),
                               segments)
      {
        var got;
        got, segments := ConsumeSegment(n - i, segments, D.ConsumeSegments(Window(), old(cursor), n));
        if !got {
          return false, [];
        }
        i := i + 1;
      }
      return true, segments;
    }

    /** One of the segments that are left; whole is what the loop has to produce. */
    method ConsumeSegment(left: nat, done: seq<Bytes>, ghost whole: (R, seq<Bytes>))
      returns (ok: bool, segments: seq<Bytes>)
      requires Valid() && left > 0 && SegmentsLeft(whole, D.ConsumeSegments(Window(), cursor, left), done)
      modifies `cursor
      ensures Valid() && (!ok ==> whole.0 == R(false, cursor))
      ensures ok ==> SegmentsLeft(whole, D.ConsumeSegments(Window(), cursor, left - 1), segments)
    {
      var start := cursor;
      ok := ConsumeSpan(4);
      if !ok {
        return false, [];
      } else if !IsLeadNameChar(data[start]) {
        return false, [];
      }
      var segment := data[start..start + 4];
      SameSlice(data, length, start, start + 4);
      AppendOne(done, segment, D.ConsumeSegments(Window(), cursor, left - 1).1);
      segments := done + [segment];
    }

    /** AmlDecoderConsumeNameString. */
    method ConsumeNameString() returns (ok: bool, name: Name)
      requires Valid()
      modifies `cursor
      ensures Valid() && R(ok, cursor) == D.ConsumeNameString(Window(), old(cursor)).0
      ensures ok ==> name == D.ConsumeNameString(Window(), old(cursor)).1
    {
      var prefix;
      ok, prefix := ConsumePrefix();
      if !ok {
        return false, Name([], []);
      }
      var segments;
      ok, segments := ConsumeNamePath();
      return ok, Name(prefix, segments);
    }

    method ConsumeNamePath() returns (ok: bool, segments: seq<Bytes>)
      requires Valid() && cursor < length
      modifies `cursor
      ensures Valid() && R(ok, cursor) == D.ConsumeNamePath(Window(), old(cursor)).0
      ensures ok ==> segments == D.ConsumeNamePath(Window(), old(cursor)).1
    {
      var first := data[cursor];
      var count: nat := 1;
      if !IsLeadNameChar(first) {
        if first == MULTI_NAME_PREFIX {
          var _, _ := ConsumeByte();
          ok, count := ConsumeByte();
          if !ok {
            return false, [];
          }
        } else if first == DUAL_NAME_PREFIX {
          count := 2;
          var _, _ := ConsumeByte();
        } else if first == 0 {
          count := 0;
          var _, _ := ConsumeByte();
        } else {
          return false, [];
        }
      }
      ok, segments := ConsumeSegments(count);
    }

    method ConsumeSimpleName() returns (ok: bool)
      requires Valid()
      modifies `cursor
      ensures Valid() && R(ok, cursor) == D.ConsumeSimpleName(ctx, Window(), old(cursor))
    {
      var peek := PeekByte(0);
      if peek == None {
        return false;
      }
      ok := MatchRange(ARG0_OP, ARG6_OP);
      if !ok {
        ok := MatchRange(LOCAL0_OP, LOCAL7_OP);
        if !ok {
          var name;
          ok, name := ConsumeNameString();
        }
      }
    }

    // -------------------------------------------------------- recursion

    /** AmlDecoderConsumeTermArg: the depth it adds is taken off again on every way out. */
    method ConsumeTermArg() returns (ok: bool)
      requires Valid()
      modifies `cursor, `depth
      ensures Valid() && depth == old(depth)
      ensures R(ok, cursor) == D.ConsumeTermArg(ctx, Window(), old(cursor), old(Room()))
      decreases Room(), 0
    {
      if depth >= maxDepth {
        return false;
      }
      var oldDepth := depth;
      depth := depth + 1;
      ok := ConsumeOneOf();
      depth := oldDepth;
    }

    /** The alternatives of a TermArg, in order. */
    method ConsumeOneOf() returns (ok: bool)
      requires Valid()
      modifies `cursor, `depth
      ensures Valid() && depth == old(depth)
      ensures R(ok, cursor) == D.ConsumeTermArg(ctx, Window(), old(cursor), old(Room()) + 1)
      decreases Room(), 4
    {
      ok := MatchDataObject();
      if !ok {
        ok := MatchRange(ARG0_OP, ARG6_OP);
        if !ok {
          ok := MatchRange(LOCAL0_OP, LOCAL7_OP);
          if !ok {
            ok := ConsumeExpression();
          }
        }
      }
    }

    /** AmlDecoderConsumeExpressionOpcode. */
    method ConsumeExpression() returns (ok: bool)
      requires Valid()
      modifies `cursor, `depth
      ensures Valid() && depth == old(depth)
      ensures R(ok, cursor) == D.ConsumeExpression(ctx, Window(), old(cursor), old(Room()))
      decreases Room(), 3
    {
      var o := PeekOpcode();
      if o.Some? && o.value.info.isExpression {
        o := ConsumeOpcode();
        ok := ConsumeInstructionArgs(o.value.info);
        return;
      }
      var name;
      ok, name := ConsumeNameString();
      if ok {
        ok := ConsumeTermArgs(MethodArgs(ctx, name));
      }
    }

    /** The argument loop of a method invocation. */
    method ConsumeTermArgs(n: nat) returns (ok: bool)
      requires Valid()
      modifies `cursor, `depth
      ensures Valid() && depth == old(depth)
      ensures R(ok, cursor) == D.ConsumeTermArgs(ctx, Window(), old(cursor), old(Room()), n)
      decreases Room(), 2, 1
    {
      ghost var whole := D.ConsumeTermArgs(ctx, Window(), cursor, Room(), n);
      RemainingStart(ctx, Window(), cursor, Room(), n);
      ok := TermArgsLoop(n, whole);
    }

    method NextTermArg(ghost n: nat, ghost whole: R) returns (ok: bool)
      requires Valid() && n > 0 && Remaining(ctx, Window(), cursor, Room(), n, whole)
      modifies `cursor, `depth
      ensures Valid() && depth == old(depth)
      ensures if ok then Remaining(ctx, Window(), cursor, Room(), n - 1, whole) else whole == R(false, cursor)
      decreases Room(), 1
    {
      ghost var from := cursor;
      ok := ConsumeTermArg();
      RemainingStep(ctx, Window(), from, Room(), n, whole, R(ok, cursor));
    }

    method TermArgsLoop(n: nat, ghost whole: R) returns (ok: bool)
      requires Valid() && Remaining(ctx, Window(), cursor, Room(), n, whole)
      modifies `cursor, `depth
      ensures Valid() && depth == old(depth)
      ensures R(ok, cursor) == whole
      decreases Room(), 2, 0
    {
      var i := 0;
      while i < n
        invariant Valid() && depth == old(depth) && i <= n
        invariant Remaining(ctx, Window(), cursor, Room(), n - i, whole)
      {
        var got := NextTermArg(n - i, whole);
        if !got {
          return false;
        }
        i := i + 1;
      }
      RemainingEnd(ctx, Window(), cursor, Room(), whole);
      return true;
    }

    /** AmlDecoderConsumeInstructionArgs. */
    method ConsumeInstructionArgs(info: OpInfo) returns (ok: bool)
      requires Valid()
      modifies `cursor, `depth
      ensures Valid() && depth == old(depth)
      ensures R(ok, cursor) == D.ConsumeInstructionArgs(ctx, Window(), old(cursor), old(Room()), info)
      decreases Room(), 1
    {
      if depth >= maxDepth {
        return false;
      }
      var oldDepth := depth;
      depth := depth + 1;
      if info.hasVariable {
        ok := ConsumeVariable();
      } else {
        ok := ConsumeArgs(info.args);
      }
      depth := oldDepth;
    }

    method ConsumeVariable() returns (ok: bool)
      requires Valid()
      modifies `cursor
      ensures Valid() && R(ok, cursor) == D.ConsumeVariable(ctx, Window(), old(cursor))
    {
      var start := cursor;
      var n;
      ok, n := ConsumePackageLength();
      if !ok {
        return false;
      } else if !(start <= ctx.totalLength && n <= ctx.totalLength - start) {
        return false;
      }
      cursor := start;
      ok := ConsumeSpan(n);
    }

    /** The loop over an instruction's fixed arguments. */
    method ConsumeArgs(args: seq<ArgType>) returns (ok: bool)
      requires Valid()
      modifies `cursor, `depth
      ensures Valid() && depth == old(depth)
      ensures R(ok, cursor) == D.ConsumeArgs(ctx, Window(), old(cursor), old(cursor), old(Room()), args)
      decreases Room(), 6
    {
      var start := cursor;
      var i := 0;
      while i < |args|
        invariant Valid() && depth == old(depth) && i <= |args| && start <= cursor
        invariant D.ConsumeArgs(ctx, Window(), start, cursor, Room(), args[i..]) ==
                  D.ConsumeArgs(ctx, Window(), start, start, Room(), args)
      {
        if args[i] == AsciiCharListArg {
          if i == |args| - 1 || args[i + 1] != NullCharArg {
            return false;
          }
          ok := ConsumeAsciiZ();
          i := i + 1;
        } else {
          ok := ConsumeArg(start, args[i]);
        }
        if !ok {
          return false;
        }
        i := i + 1;
      }
      return true;
    }

    method ConsumeArg(start: nat, arg: ArgType) returns (ok: bool)
      requires Valid() && start <= cursor
      modifies `cursor, `depth
      ensures Valid() && depth == old(depth)
      ensures R(ok, cursor) == D.ConsumeArg(ctx, Window(), start, old(cursor), old(Room()), arg)
      decreases Room(), 5
    {
      match arg
      case NameStringArg => var name; ok, name := ConsumeNameString();
      case DataRefObjectArg => ok := MatchDataObject();
      case ByteDataArg => var b; ok, b := ConsumeByte();
      case WordDataArg => ok := ConsumeSpan(2);
      case DWordDataArg => ok := ConsumeSpan(4);
      case QWordDataArg => ok := ConsumeSpan(8);
      case AsciiCharListArg => ok := false;
      case NullCharArg => ok := MatchByte(0);
      case TermArgArg => ok := ConsumeTermArg();
      case NameSegArg => ok := ConsumeSpan(4);
      case NameSegNArg =>
        if cursor - start < 1 {
          return false;
        }
        ok := ConsumeSpan(4 * (data[cursor - 1] as nat));
      case SuperNameArg => ok := ConsumeSuperName(true);
      case SuperNameNoInvocationArg => ok := ConsumeSuperName(false);
      case TargetArg =>
        var peek := PeekByte(0);
        if peek == None {
          return false;
        } else if peek.value == 0 {
          var b;
          ok, b := ConsumeByte();
        } else {
          ok := ConsumeSuperName(true);
        }
      case SimpleNameArg => ok := ConsumeSimpleName();
    }

    /** AmlDecoderConsumeSuperName. */
    method ConsumeSuperName(invoke: bool) returns (ok: bool)
      requires Valid()
      modifies `cursor, `depth
      ensures Valid() && depth == old(depth)
      ensures R(ok, cursor) == D.ConsumeSuperName(ctx, Window(), old(cursor), old(Room()), invoke)
      decreases Room(), 4
    {
      var o := PeekOpcode();
      if o == None {
        return false;
      }
      var id := o.value.id;
      if id == DEBUG_OP {
        o := ConsumeOpcode();
        return o.Some?;
      }
      if id == REF_OF_OP || id == DEREF_OF_OP || id == INDEX_OP {
        o := ConsumeOpcode();
        ok := ConsumeInstructionArgs(o.value.info);
        return;
      }
      if LOCAL0_OP <= id <= LOCAL7_OP {
        return true;
      } else if ARG0_OP <= id <= ARG6_OP {
        return true;
      }
      ok := ConsumeNamed(invoke);
    }

    method ConsumeNamed(invoke: bool) returns (ok: bool)
      requires Valid()
      modifies `cursor, `depth
      ensures Valid() && depth == old(depth)
      ensures R(ok, cursor) == D.NullOrNamed(ctx, Window(), old(cursor), old(Room()), invoke)
      decreases Room(), 3
    {
      if !invoke {
        ok := MatchByte(0);
        if ok {
          return;
        }
      }
      var name;
      ok, name := ConsumeNameString();
      if ok && invoke {
        ok := ConsumeTermArgs(MethodArgs(ctx, name));
      }
    }
  }

  lemma PackageLengthOr(low: nat, acc: nat, extraCount: nat)
    requires extraCount == 0 ==> acc == 0
    requires extraCount > 0 ==> low < 16
    ensures Or(low, ShiftLeft(acc, 4)) == low + 16 * acc
  {
    ShiftLeft4(1);
    ShiftLeft4(acc);
    if extraCount > 0 {
      OrAdds(low, acc, 4);
    } else {
      OrRightZero(low);
    }
  }
}
