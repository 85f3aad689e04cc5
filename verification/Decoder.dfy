/**
 The AML skipper (src/aml_decoder.c): how far the cursor moves over the encoding
 of section 20.2 of ACPI 6.5 without evaluating anything.

 Everything here is a function of the bytes below the window's end and of the
 cursor, so nothing beyond the window can influence it.  Each function returns
 where the cursor is left, on success and on failure, because a failed match may
 have moved it.  room is the recursion depth still available.
 */
module Decoder {
  import opened Bits

  datatype R = R(ok: bool, cur: nat)
  datatype Option<T> = None | Some(value: T)

  // -------------------------------------------------------------- opcodes

  datatype ArgType =
    | NameStringArg | DataRefObjectArg | ByteDataArg | WordDataArg | DWordDataArg | QWordDataArg
    | AsciiCharListArg | NullCharArg | TermArgArg | NameSegArg | NameSegNArg
    | SuperNameArg | SuperNameNoInvocationArg | TargetArg | SimpleNameArg

  datatype OpInfo = OpInfo(isExpression: bool, args: seq<ArgType>, hasVariable: bool)

  /** A two-byte family: mandatory (0x5B) or optional (0x92). */
  datatype SubTable = SubTable(isOptional: bool, entries: map<nat, OpInfo>)

  datatype L1Entry = L1Entry(info: OpInfo, sub: Option<SubTable>)

  type Table = map<nat, L1Entry>

  datatype Opcode = Opcode(id: nat, isTwoByte: bool, info: OpInfo)

  /** A parsed name: prefix characters and segments of four bytes. */
  datatype Name = Name(prefix: Bytes, segments: seq<Bytes>)

  /**
   The opcode table, the argument counts of the methods the namespace knows, and
   the length of the whole data block the window is part of.
   */
  datatype Context = Context(table: Table, methods: map<Name, nat>, totalLength: nat)

  const ZERO_OP: nat := 0x00
  const ONE_OP: nat := 0x01
  const BYTE_PREFIX: nat := 0x0A
  const WORD_PREFIX: nat := 0x0B
  const DWORD_PREFIX: nat := 0x0C
  const STRING_PREFIX: nat := 0x0D
  const QWORD_PREFIX: nat := 0x0E
  const BUFFER_OP: nat := 0x11
  const PACKAGE_OP: nat := 0x12
  const VAR_PACKAGE_OP: nat := 0x13
  const DUAL_NAME_PREFIX: nat := 0x2E
  const MULTI_NAME_PREFIX: nat := 0x2F
  const ROOT_CHAR: nat := 0x5C
  const PARENT_CHAR: nat := 0x5E
  const UNDERSCORE: nat := 0x5F
  const LOCAL0_OP: nat := 0x60
  const LOCAL7_OP: nat := 0x67
  const ARG0_OP: nat := 0x68
  const ARG6_OP: nat := 0x6E
  const REF_OF_OP: nat := 0x71
  const DEREF_OF_OP: nat := 0x83
  const INDEX_OP: nat := 0x88
  const ONES_OP: nat := 0xFF
  const REVISION_OP: nat := 0x305B
  const DEBUG_OP: nat := 0x315B
  const NAME_MAX_PREFIX_COUNT: nat := 16

  /** AmlDecoderPeekOpcode. */
  function PeekOpcode(c: Context, w: Bytes, cur: nat): Option<Opcode> {
    if cur >= |w| || w[cur] !in c.table then None
    else
      var entry := c.table[w[cur]];
      match entry.sub
      case None => Some(Opcode(w[cur], false, entry.info))
      case Some(sub) =>
        if cur + 1 >= |w| then None
        else if w[cur + 1] in sub.entries then
          Some(Opcode(w[cur] as nat + 256 * w[cur + 1] as nat, true, sub.entries[w[cur + 1]]))
        else if sub.isOptional then Some(Opcode(w[cur], false, entry.info))
        else None
  }

  function OpcodeSize(o: Opcode): nat {
    if o.isTwoByte then 2 else 1
  }

  /** AmlDecoderConsumeOpcode. */
  function ConsumeOpcode(c: Context, w: Bytes, cur: nat): (r: R)
    requires cur <= |w|
    ensures cur <= r.cur <= |w|
  {
    match PeekOpcode(c, w, cur)
    case None => R(false, cur)
    case Some(o) => R(true, cur + OpcodeSize(o))
  }

  /** AmlDecoderMatchOpcode. */
  function MatchOpcode(c: Context, w: Bytes, cur: nat, id: nat): (r: R)
    requires cur <= |w|
    ensures cur <= r.cur <= |w|
  {
    match PeekOpcode(c, w, cur)
    case None => R(false, cur)
    case Some(o) => if o.id != id then R(false, cur) else R(true, cur + OpcodeSize(o))
  }

  // ------------------------------------------------------------- bytes

  function ConsumeByte(w: Bytes, cur: nat): (r: R)
    requires cur <= |w|
    ensures cur <= r.cur <= |w|
  {
    if cur >= |w| then R(false, cur) else R(true, cur + 1)
  }

  function ConsumeSpan(w: Bytes, cur: nat, n: nat): (r: R)
    requires cur <= |w|
    ensures cur <= r.cur <= |w|
  {
    if cur >= |w| || n > |w| - cur then R(false, cur) else R(true, cur + n)
  }

  function MatchByte(w: Bytes, cur: nat, b: nat): (r: R)
    requires cur <= |w|
    ensures cur <= r.cur <= |w|
  {
    if cur >= |w| || w[cur] != b then R(false, cur) else R(true, cur + 1)
  }

  /** The rest of a NUL-terminated run of ASCII characters. */
  function ConsumeAsciiZ(w: Bytes, cur: nat): (r: R)
    requires cur <= |w|
    ensures cur <= r.cur <= |w|
    decreases |w| - cur
  {
    if cur >= |w| then R(false, cur)
    else if w[cur] == 0 then R(true, cur + 1)
    else if w[cur] > 0x7F then R(false, cur + 1)
    else ConsumeAsciiZ(w, cur + 1)
  }

  /** The extra bytes of a package length, little-endian; the value only matters on success. */
  function ConsumeExtra(w: Bytes, cur: nat, count: nat, i: nat): (r: (R, nat))
    requires cur <= |w| && i <= count
    ensures cur <= r.0.cur <= |w|
    decreases count - i
  {
    if i == count then (R(true, cur), 0)
    else if cur >= |w| then (R(false, cur), 0)
    else
      var (rest, acc) := ConsumeExtra(w, cur + 1, count, i + 1);
      (rest, w[cur] + 256 * acc)
  }

  /** AmlDecoderConsumePackageLength. */
  function ConsumePackageLength(w: Bytes, cur: nat): (r: (R, nat))
    requires cur <= |w|
    ensures cur <= r.0.cur <= |w|
    ensures r.0.ok ==> cur < r.0.cur
  {
    if cur >= |w| then (R(false, cur), 0)
    else
      var first := w[cur];
      var extraCount := first / 64;
      var (r, acc) := ConsumeExtra(w, cur + 1, extraCount, 0);
      (r, (if extraCount == 0 then first % 64 else first % 16) + 16 * acc)
  }

  // -------------------------------------------------------- data objects

  /** AmlDecoderMatchConstIntegerData. */
  function MatchConstInteger(c: Context, w: Bytes, cur: nat): (r: (R, nat))
    requires cur <= |w|
    ensures cur <= r.0.cur <= |w|
  {
    match PeekOpcode(c, w, cur)
    case None => (R(false, cur), 0)
    case Some(o) =>
      var next := cur + OpcodeSize(o);
      if SizeOfConst(o.id) > 0 then ConstData(w, next, SizeOfConst(o.id))
      else if o.id == ZERO_OP then (R(true, next), 0)
      else if o.id == ONE_OP then (R(true, next), 1)
      else if o.id == ONES_OP then (R(true, next), Pow2(64) - 1)
      else (R(false, cur), 0)
  }

  /** How many bytes follow a constant's prefix; zero when the opcode is no such prefix. */
  function SizeOfConst(id: nat): nat {
    if id == BYTE_PREFIX then 1
    else if id == WORD_PREFIX then 2
    else if id == DWORD_PREFIX then 4
    else if id == QWORD_PREFIX then 8
    else 0
  }

  function ConstData(w: Bytes, cur: nat, n: nat): (r: (R, nat))
    requires cur <= |w|
    ensures cur <= r.0.cur <= |w|
  {
    var r := ConsumeSpan(w, cur, n);
    (r, if r.ok then FromLE(w[cur..cur + n]) else 0)
  }

  function MatchString(c: Context, w: Bytes, cur: nat): (r: R)
    requires cur <= |w|
    ensures cur <= r.cur <= |w|
  {
    var prefix := MatchOpcode(c, w, cur, STRING_PREFIX);
    if !prefix.ok then prefix else ConsumeAsciiZ(w, prefix.cur)
  }

  /** AmlDecoderMatchDefBuffer. */
  function MatchBuffer(c: Context, w: Bytes, cur: nat): (r: R)
    requires cur <= |w|
    ensures cur <= r.cur <= |w|
  {
    var op := MatchOpcode(c, w, cur, BUFFER_OP);
    if !op.ok then op
    else
      var (pkg, n) := ConsumePackageLength(w, op.cur);
      if !pkg.ok || n > |w| - op.cur then R(false, pkg.cur) else R(true, op.cur + n)
  }

  /** AmlDecoderMatchDefPackage. */
  function MatchPackage(c: Context, w: Bytes, cur: nat): (r: R)
    requires cur <= |w|
    ensures cur <= r.cur <= |w|
  {
    var op := MatchOpcode(c, w, cur, PACKAGE_OP);
    if !op.ok then op
    else
      var (pkg, n) := ConsumePackageLength(w, op.cur);
      if !pkg.ok || n > |w| - op.cur then R(false, pkg.cur)
      else
        var count := ConsumeByte(w, pkg.cur);
        if !count.ok || n < count.cur - op.cur then R(false, count.cur) else R(true, op.cur + n)
  }

  /** AmlDecoderMatchDefVarPackage: the package must end before the window does. */
  function MatchVarPackage(c: Context, w: Bytes, cur: nat): (r: R)
    requires cur <= |w|
    ensures cur <= r.cur <= |w|
  {
    var op := MatchOpcode(c, w, cur, VAR_PACKAGE_OP);
    if !op.ok then op
    else
      var (pkg, n) := ConsumePackageLength(w, op.cur);
      if !pkg.ok || n >= |w| - op.cur then R(false, pkg.cur) else R(true, op.cur + n)
  }

  /** AmlDecoderMatchComputationalData: RevisionOp is recognised without being consumed. */
  function MatchComputational(c: Context, w: Bytes, cur: nat): (r: R)
    requires cur <= |w|
    ensures cur <= r.cur <= |w|
  {
    var integer := MatchConstInteger(c, w, cur).0;
    if integer.ok then integer
    else
      match PeekOpcode(c, w, integer.cur)
      case None => R(false, integer.cur)
      case Some(o) =>
        if o.id == STRING_PREFIX then MatchString(c, w, integer.cur)
        else if o.id == REVISION_OP then R(true, integer.cur)
        else if o.id == BUFFER_OP then MatchBuffer(c, w, integer.cur)
        else R(false, integer.cur)
  }

  /** AmlDecoderMatchDataObject. */
  function MatchDataObject(c: Context, w: Bytes, cur: nat): (r: R)
    requires cur <= |w|
    ensures cur <= r.cur <= |w|
  {
    var computational := MatchComputational(c, w, cur);
    if computational.ok then computational
    else
      var package := MatchPackage(c, w, computational.cur);
      if package.ok then package else MatchVarPackage(c, w, package.cur)
  }

  function MatchRange(c: Context, w: Bytes, cur: nat, lo: nat, hi: nat): (r: R)
    requires cur <= |w|
    ensures cur <= r.cur <= |w|
  {
    match PeekOpcode(c, w, cur)
    case None => R(false, cur)
    case Some(o) => if lo <= o.id <= hi then R(true, cur + OpcodeSize(o)) else R(false, cur)
  }

  function MatchArgObj(c: Context, w: Bytes, cur: nat): (r: R)
    requires cur <= |w|
    ensures cur <= r.cur <= |w|
  {
    MatchRange(c, w, cur, ARG0_OP, ARG6_OP)
  }

  function MatchLocalObj(c: Context, w: Bytes, cur: nat): (r: R)
    requires cur <= |w|
    ensures cur <= r.cur <= |w|
  {
    MatchRange(c, w, cur, LOCAL0_OP, LOCAL7_OP)
  }

  // --------------------------------------------------------------- names

  predicate IsLeadNameChar(b: nat) {
    0x41 <= b <= 0x5A || b == UNDERSCORE
  }

  /** The prefix loop: how many prefix characters, or None when there is no byte left or there are too many. */
  function PrefixEnd(w: Bytes, cur: nat, count: nat): (r: R)
    requires cur <= |w|
    ensures cur <= r.cur <= |w|
    ensures r.ok ==> r.cur < |w|
    decreases |w| - cur
  {
    if cur >= |w| || count >= NAME_MAX_PREFIX_COUNT then R(false, cur)
    else if w[cur] != ROOT_CHAR && w[cur] != PARENT_CHAR then R(true, cur)
    else PrefixEnd(w, cur + 1, count + 1)
  }

  function ConsumeSegments(w: Bytes, cur: nat, n: nat): (r: (R, seq<Bytes>))
    requires cur <= |w|
    ensures cur <= r.0.cur <= |w|
    decreases n
  {
    if n == 0 then (R(true, cur), [])
    else
      var span := ConsumeSpan(w, cur, 4);
      if !span.ok then (span, [])
      else if !IsLeadNameChar(w[cur]) then (R(false, span.cur), [])
      else
        var (rest, segments) := ConsumeSegments(w, span.cur, n - 1);
        (rest, [w[cur..cur + 4]] + segments)
  }

  /** What follows the prefix: NameSeg, DualNamePath, MultiNamePath or NullName. */
  function ConsumeNamePath(w: Bytes, cur: nat): (r: (R, seq<Bytes>))
    requires cur < |w|
    ensures cur <= r.0.cur <= |w|
  {
    var first := w[cur];
    if IsLeadNameChar(first) then ConsumeSegments(w, cur, 1)
    else if first == MULTI_NAME_PREFIX then
      if cur + 1 >= |w| then (R(false, cur + 1), [])
      else ConsumeSegments(w, cur + 2, w[cur + 1])
    else if first == DUAL_NAME_PREFIX then ConsumeSegments(w, cur + 1, 2)
    else if first == 0 then ConsumeSegments(w, cur + 1, 0)
    else (R(false, cur), [])
  }

  /** AmlDecoderConsumeNameString. */
  function ConsumeNameString(w: Bytes, cur: nat): (r: (R, Name))
    requires cur <= |w|
    ensures cur <= r.0.cur <= |w|
  {
    var p := PrefixEnd(w, cur, 0);
    if !p.ok then (p, Name([], []))
    else
      var (path, segments) := ConsumeNamePath(w, p.cur);
      (path, Name(w[cur..p.cur], segments))
  }

  function ConsumeSimpleName(c: Context, w: Bytes, cur: nat): (r: R)
    requires cur <= |w|
    ensures cur <= r.cur <= |w|
  {
    if cur >= |w| then R(false, cur)
    else
      var arg := MatchArgObj(c, w, cur);
      if arg.ok then arg
      else
        var local := MatchLocalObj(c, w, arg.cur);
        if local.ok then local else ConsumeNameString(w, local.cur).0
  }

  // ----------------------------------------------------------- recursion

  function MethodArgs(c: Context, name: Name): nat {
    if name in c.methods then c.methods[name] else 0
  }

  /** AmlDecoderConsumeTermArg. */
  function ConsumeTermArg(c: Context, w: Bytes, cur: nat, room: nat): (r: R)
    requires cur <= |w|
    ensures cur <= r.cur <= |w|
    decreases room, 0
  {
    if room == 0 then R(false, cur)
    else
      var data := MatchDataObject(c, w, cur);
      if data.ok then data
      else
        var arg := MatchArgObj(c, w, data.cur);
        if arg.ok then arg
        else
          var local := MatchLocalObj(c, w, arg.cur);
          if local.ok then local else ConsumeExpression(c, w, local.cur, room - 1)
  }

  /** AmlDecoderConsumeExpressionOpcode. */
  function ConsumeExpression(c: Context, w: Bytes, cur: nat, room: nat): (r: R)
    requires cur <= |w|
    ensures cur <= r.cur <= |w|
    decreases room, 3
  {
    var peek := PeekOpcode(c, w, cur);
    if peek.Some? && peek.value.info.isExpression then
      ConsumeInstructionArgs(c, w, cur + OpcodeSize(peek.value), room, peek.value.info)
    else
      var (name, value) := ConsumeNameString(w, cur);
      if !name.ok then name else ConsumeTermArgs(c, w, name.cur, room, MethodArgs(c, value))
  }

  /** n TermArgs in a row. */
  function ConsumeTermArgs(c: Context, w: Bytes, cur: nat, room: nat, n: nat): (r: R)
    requires cur <= |w|
    ensures cur <= r.cur <= |w|
    decreases room, 2, n
  {
    if n == 0 then R(true, cur)
    else
      var first := ConsumeTermArg(c, w, cur, room);
      if !first.ok then first else ConsumeTermArgs(c, w, first.cur, room, n - 1)
  }

  /** AmlDecoderConsumeInstructionArgs. */
  function ConsumeInstructionArgs(c: Context, w: Bytes, cur: nat, room: nat, info: OpInfo): (r: R)
    requires cur <= |w|
    ensures cur <= r.cur <= |w|
    decreases room, 1
  {
    if room == 0 then R(false, cur)
    else if info.hasVariable then ConsumeVariable(c, w, cur)
    else ConsumeArgs(c, w, cur, cur, room - 1, info.args)
  }

  /** Variable-argument instructions are one package. */
  function ConsumeVariable(c: Context, w: Bytes, cur: nat): (r: R)
    requires cur <= |w|
    ensures cur <= r.cur <= |w|
  {
    var (pkg, n) := ConsumePackageLength(w, cur);
    if !pkg.ok then pkg
    else if cur > c.totalLength || n > c.totalLength - cur then R(false, pkg.cur)
    else ConsumeSpan(w, cur, n)
  }

  /** The remaining fixed arguments of an instruction whose arguments began at start. */
  function ConsumeArgs(c: Context, w: Bytes, start: nat, cur: nat, room: nat, args: seq<ArgType>): (r: R)
    requires start <= cur <= |w|
    ensures cur <= r.cur <= |w|
    decreases room, 6, |args|
  {
    if args == [] then R(true, cur)
    else if args[0].AsciiCharListArg? then
      if |args| < 2 || !args[1].NullCharArg? then R(false, cur)
      else
        var r := ConsumeAsciiZ(w, cur);
        if !r.ok then r else ConsumeArgs(c, w, start, r.cur, room, args[2..])
    else
      var r := ConsumeArg(c, w, start, cur, room, args[0]);
      if !r.ok then r else ConsumeArgs(c, w, start, r.cur, room, args[1..])
  }

  function ConsumeArg(c: Context, w: Bytes, start: nat, cur: nat, room: nat, arg: ArgType): (r: R)
    requires start <= cur <= |w|
    ensures cur <= r.cur <= |w|
    decreases room, 5
  {
    match arg
    case NameStringArg => ConsumeNameString(w, cur).0
    case DataRefObjectArg => MatchDataObject(c, w, cur)
    case ByteDataArg => ConsumeByte(w, cur)
    case WordDataArg => ConsumeSpan(w, cur, 2)
    case DWordDataArg => ConsumeSpan(w, cur, 4)
    case QWordDataArg => ConsumeSpan(w, cur, 8)
    case AsciiCharListArg => R(false, cur)
    case NullCharArg => MatchByte(w, cur, 0)
    case TermArgArg => ConsumeTermArg(c, w, cur, room)
    case NameSegArg => ConsumeSpan(w, cur, 4)
    case NameSegNArg => if cur - start < 1 then R(false, cur) else ConsumeSpan(w, cur, 4 * (w[cur - 1] as nat))
    case SuperNameArg => ConsumeSuperName(c, w, cur, room, true)
    case SuperNameNoInvocationArg => ConsumeSuperName(c, w, cur, room, false)
    case TargetArg =>
      if cur >= |w| then R(false, cur)
      else if w[cur] == 0 then ConsumeByte(w, cur)
      else ConsumeSuperName(c, w, cur, room, true)
    case SimpleNameArg => ConsumeSimpleName(c, w, cur)
  }

  /** AmlDecoderConsumeSuperName: locals and arguments are recognised without being consumed. */
  function ConsumeSuperName(c: Context, w: Bytes, cur: nat, room: nat, invoke: bool): (r: R)
    requires cur <= |w|
    ensures cur <= r.cur <= |w|
    decreases room, 4
  {
    match PeekOpcode(c, w, cur)
    case None => R(false, cur)
    case Some(o) =>
      if o.id == DEBUG_OP then ConsumeOpcode(c, w, cur)
      else if o.id == REF_OF_OP || o.id == DEREF_OF_OP || o.id == INDEX_OP then
        ConsumeInstructionArgs(c, w, cur + OpcodeSize(o), room, o.info)
      else if LOCAL0_OP <= o.id <= LOCAL7_OP || ARG0_OP <= o.id <= ARG6_OP then R(true, cur)
      else
        NullOrNamed(c, w, cur, room, invoke)
  }

  /** A name in a SuperName position; the no-invocation flag also happens to allow the null name. */
  function NullOrNamed(c: Context, w: Bytes, cur: nat, room: nat, invoke: bool): (r: R)
    requires cur <= |w|
    ensures cur <= r.cur <= |w|
    decreases room, 3
  {
    if !invoke && MatchByte(w, cur, 0).ok then MatchByte(w, cur, 0)
    else
      var (name, value) := ConsumeNameString(w, cur);
      if !name.ok then name
      else if invoke then ConsumeTermArgs(c, w, name.cur, room, MethodArgs(c, value))
      else name
  }
}
