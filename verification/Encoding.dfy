/**
 The encodings of section 20.2 of ACPI 6.5: package lengths, names, and terms with
 their arguments, and when a term is well formed over an opcode table.
 */
module Encoding {
  import opened Bits
  import opened Decoder
  import opened Folding

  // ------------------------------------------------------- package length

  function PowerOf256(k: nat): nat {
    if k == 0 then 1 else 256 * PowerOf256(k - 1)
  }

  /** The package length n with the given number of extra bytes. */
  function EncodePkgLengthAs(n: nat, extra: nat): (s: Bytes)
    requires extra <= 3
    requires if extra == 0 then n < 0x40 else n < 16 * PowerOf256(extra)
    ensures |s| == 1 + extra
  {
    if extra == 0 then [n] else [64 * extra + n % 16] + ToLE(n / 16, extra)
  }

  lemma {:induction false} ExtraDecodes(w: Bytes, cur: nat, n: nat, count: nat, i: nat)
    requires i <= count && n < PowerOf256(count - i)
    requires cur + (count - i) <= |w| && w[cur..cur + (count - i)] == ToLE(n, count - i)
    ensures ConsumeExtra(w, cur, count, i) == (R(true, cur + (count - i)), n)
    decreases count - i
  {
    if i < count {
      var s := ToLE(n, count - i);
      assert s[0] == w[cur] && s[1..] == ToLE(n / 256, count - i - 1);
      assert w[cur + 1..cur + (count - i)] == w[cur..cur + (count - i)][1..];
      ExtraDecodes(w, cur + 1, n / 256, count, i + 1);
    }
  }

  lemma LeadByte(extra: nat, low: nat)
    requires 0 < extra <= 3 && low < 16
    ensures (64 * extra + low) / 64 == extra && (64 * extra + low) % 16 == low
  {
  }

  /** The same, when the length field has extra bytes. */
  lemma LongLengthDecodes(w: Bytes, cur: nat, n: nat, extra: nat)
    requires 0 < extra <= 3 && n < 16 * PowerOf256(extra)
    requires At(w, cur, [64 * extra + n % 16] + ToLE(n / 16, extra))
    ensures ConsumePackageLength(w, cur) == (R(true, cur + 1 + extra), n)
  {
    var lead := [64 * extra + n % 16];
    AtFirst(w, cur, lead + ToLE(n / 16, extra));
    AtSplit(w, cur, lead, ToLE(n / 16, extra));
    AtIs(w, cur + 1, ToLE(n / 16, extra));
    ExtraDecodes(w, cur + 1, n / 16, extra, 0);
    LeadByte(extra, n % 16);
  }

  /** Decoding a package length gives it back, for every length and every encoding of it. */
  lemma PkgLengthRoundTrip(w: Bytes, cur: nat, n: nat, extra: nat)
    requires extra <= 3
    requires if extra == 0 then n < 0x40 else n < 16 * PowerOf256(extra)
    requires At(w, cur, EncodePkgLengthAs(n, extra))
    ensures ConsumePackageLength(w, cur) == (R(true, cur + 1 + extra), n)
  {
    if extra == 0 {
      AtFirst(w, cur, [n]);
    } else {
      LongLengthDecodes(w, cur, n, extra);
    }
  }

  /** s lies in w at cur. */
  ghost predicate At(w: Bytes, cur: nat, s: Bytes) {
    cur + |s| <= |w| && forall key :: Open(AT, key) ==> w[cur..cur + |s|] == s
  }

  lemma AtIs(w: Bytes, cur: nat, s: Bytes)
    ensures At(w, cur, s) <==> cur + |s| <= |w| && w[cur..cur + |s|] == s
  {
    assert Open(AT, 0);
  }

  lemma AtSplit(w: Bytes, cur: nat, a: Bytes, b: Bytes)
    requires At(w, cur, a + b)
    ensures At(w, cur, a) && At(w, cur + |a|, b)
  {
    var s := a + b;
    AtIs(w, cur, s);
    assert w[cur..cur + |a|] == w[cur..cur + |s|][..|a|] == s[..|a|] == a;
    assert w[cur + |a|..cur + |s|] == w[cur..cur + |s|][|a|..] == s[|a|..] == b;
  }

  lemma AtFirst(w: Bytes, cur: nat, s: Bytes)
    requires At(w, cur, s) && s != []
    ensures w[cur] == s[0]
  {
    AtIs(w, cur, s);
    assert w[cur] == w[cur..cur + |s|][0];
  }

  lemma AtSecond(w: Bytes, cur: nat, s: Bytes)
    requires At(w, cur, s) && |s| > 1
    ensures w[cur + 1] == s[1]
  {
    AtIs(w, cur, s);
    assert w[cur + 1] == w[cur..cur + |s|][1];
  }

  /** All of a package: its length field and its body, with the shortest length field that fits. */
  function PackageExtra(bodyLength: nat): nat {
    if bodyLength + 1 < 0x40 then 0
    else if bodyLength + 2 < 0x1000 then 1
    else if bodyLength + 3 < 0x10_0000 then 2
    else 3
  }

  predicate PackageFits(bodyLength: nat) {
    bodyLength + 4 < 0x1000_0000
  }

  function EncodePackage(body: Bytes): (s: Bytes)
    ensures PackageFits(|body|) ==> |s| == 1 + PackageExtra(|body|) + |body|
  {
    if PackageFits(|body|) then
      PackageLengthFits(|body|);
      EncodePkgLengthAs(1 + PackageExtra(|body|) + |body|, PackageExtra(|body|)) + body
    else []
  }

  lemma PackageLengthFits(bodyLength: nat)
    requires PackageFits(bodyLength)
    ensures var extra := PackageExtra(bodyLength);
            var n := 1 + extra + bodyLength;
            extra <= 3 && if extra == 0 then n < 0x40 else n < 16 * PowerOf256(extra)
  {
    assert PowerOf256(1) == 256 && PowerOf256(2) == 0x1_0000 && PowerOf256(3) == 0x100_0000;
  }

  // ---------------------------------------------------------------- terms

  datatype Prefix = Root | Parents(count: nat)

  datatype NamePath = NullName | Single(seg: Bytes) | Dual(first: Bytes, second: Bytes) | Multi(segs: seq<Bytes>)

  datatype NameString = NameString(prefix: Prefix, path: NamePath)

  datatype Term =
    | Zero | One | Ones
    | ByteConst(b: Bytes) | WordConst(b: Bytes) | DWordConst(b: Bytes) | QWordConst(b: Bytes)
    | Str(chars: Bytes)
    | Buffer(body: Bytes)
    | Package(count: byte, body: Bytes)
    | VarPackage(body: Bytes)
    | ArgObj(n: nat)
    | LocalObj(n: nat)
    | NameRef(name: NameString, invocation: seq<Term>)
    | Op(code: Bytes, args: seq<Arg>)

  datatype Arg =
    | TermValue(t: Term)
    | RawData(b: Bytes)
    | NullTarget
    | NamedTarget(name: NameString, invocation: seq<Term>)
    | DebugTarget
    | ReferenceTarget(code: nat, args: seq<Arg>)
    | SimpleArgObj(n: nat)
    | SimpleLocalObj(n: nat)

  function EncodePrefix(p: Prefix): Bytes {
    match p
    case Root => [ROOT_CHAR]
    case Parents(n) => seq(n, i => PARENT_CHAR)
  }

  function Concat(segs: seq<Bytes>): Bytes {
    if segs == [] then [] else segs[0] + Concat(segs[1..])
  }

  function PathSegments(p: NamePath): seq<Bytes> {
    match p
    case NullName => []
    case Single(s) => [s]
    case Dual(a, b) => [a, b]
    case Multi(segs) => segs
  }

  function EncodePath(p: NamePath): Bytes {
    match p
    case NullName => [0]
    case Single(s) => s
    case Dual(a, b) => [DUAL_NAME_PREFIX] + Concat([a, b])
    case Multi(segs) => [MULTI_NAME_PREFIX, |segs| % 256] + Concat(segs)
  }

  predicate SegOk(s: Bytes) {
    |s| == 4 && IsLeadNameChar(s[0])
  }

  predicate SegsOk(segs: seq<Bytes>) {
    segs == [] || (SegOk(segs[0]) && SegsOk(segs[1..]))
  }

  /** A name the skipper accepts: fewer prefix characters than the limit, segments that start with a letter or '_'. */
  predicate NameOk(n: NameString) {
    (n.prefix.Parents? ==> n.prefix.count < NAME_MAX_PREFIX_COUNT) &&
    (n.path.Multi? ==> |n.path.segs| < 256) &&
    SegsOk(PathSegments(n.path))
  }

  function EncodeName(n: NameString): Bytes {
    EncodePrefix(n.prefix) + EncodePath(n.path)
  }

  function ParsedName(n: NameString): Name {
    Name(EncodePrefix(n.prefix), PathSegments(n.path))
  }

  function Encode(t: Term): Bytes {
    match t
    case Zero => [ZERO_OP]
    case One => [ONE_OP]
    case Ones => [ONES_OP]
    case ByteConst(b) => [BYTE_PREFIX] + b
    case WordConst(b) => [WORD_PREFIX] + b
    case DWordConst(b) => [DWORD_PREFIX] + b
    case QWordConst(b) => [QWORD_PREFIX] + b
    case Str(chars) => [STRING_PREFIX] + chars + [0]
    case Buffer(body) => [BUFFER_OP] + EncodePackage(body)
    case Package(count, body) => [PACKAGE_OP] + EncodePackage([count] + body)
    case VarPackage(body) => [VAR_PACKAGE_OP] + EncodePackage(body)
    case ArgObj(n) => [(ARG0_OP + n) % 256]
    case LocalObj(n) => [(LOCAL0_OP + n) % 256]
    case NameRef(name, invocation) => EncodeName(name) + EncodeTerms(invocation)
    case Op(code, args) => code + EncodeArgs(args)
  }

  function EncodeTerms(ts: seq<Term>): Bytes {
    if ts == [] then [] else Encode(ts[0]) + EncodeTerms(ts[1..])
  }

  function EncodeArgs(args: seq<Arg>): Bytes {
    if args == [] then [] else EncodeArg(args[0]) + EncodeArgs(args[1..])
  }

  function EncodeArg(a: Arg): Bytes {
    match a
    case TermValue(t) => Encode(t)
    case RawData(b) => b
    case NullTarget => [0]
    case NamedTarget(name, invocation) => EncodeName(name) + EncodeTerms(invocation)
    case DebugTarget => [0x5B, 0x31]
    case ReferenceTarget(code, args) => [code % 256] + EncodeArgs(args)
    case SimpleArgObj(n) => [(ARG0_OP + n) % 256]
    case SimpleLocalObj(n) => [(LOCAL0_OP + n) % 256]
  }

  // -------------------------------------------------------- well-formed

  /** A one-byte opcode of the table. */
  predicate Plain(c: Context, b: nat) {
    b in c.table && c.table[b].sub.None?
  }

  /** The bytes a name string can begin with, other than the bare null name. */
  predicate IsNameByte(b: nat) {
    IsLeadNameChar(b) || b == ROOT_CHAR || b == PARENT_CHAR || b == DUAL_NAME_PREFIX || b == MULTI_NAME_PREFIX
  }

  /** The opcode identifiers that the data object, argument and local cases claim. */
  predicate IsDataId(id: nat) {
    id == ZERO_OP || id == ONE_OP || id == ONES_OP || id == BYTE_PREFIX || id == WORD_PREFIX || id == DWORD_PREFIX ||
    id == QWORD_PREFIX || id == STRING_PREFIX || id == BUFFER_OP || id == PACKAGE_OP || id == VAR_PACKAGE_OP ||
    id == REVISION_OP || LOCAL0_OP <= id <= ARG6_OP
  }

  /** What the skipper relies on in the opcode table. */
  predicate TableOk(c: Context) {
    (forall b: nat | b < 256 && IsDataId(b) :: Plain(c, b)) &&
    (forall b: nat | b < 256 && IsNameByte(b) :: Plain(c, b) && !c.table[b].info.isExpression)
  }

  /** Not the bare null name, whose single zero byte other encodings use. */
  predicate NonNull(n: NameString) {
    n.prefix == Parents(0) ==> !n.path.NullName?
  }

  predicate NameFits(c: Context, n: NameString, invocation: seq<Term>) {
    NameOk(n) && NonNull(n) && |invocation| == MethodArgs(c, ParsedName(n))
  }

  predicate StringChars(chars: Bytes) {
    chars == [] || (0 < chars[0] <= 0x7F && StringChars(chars[1..]))
  }

  predicate WellFormed(c: Context, t: Term)
    decreases t, 0
  {
    match t
    case Zero => true
    case One => true
    case Ones => true
    case ByteConst(b) => |b| == 1
    case WordConst(b) => |b| == 2
    case DWordConst(b) => |b| == 4
    case QWordConst(b) => |b| == 8
    case Str(chars) => StringChars(chars)
    case Buffer(body) => PackageFits(|body|)
    case Package(_, body) => PackageFits(1 + |body|)
    case VarPackage(body) => PackageFits(|body|)
    case ArgObj(n) => n < 7
    case LocalObj(n) => n < 8
    case NameRef(name, invocation) => NameFits(c, name, invocation) && WellFormedTerms(c, invocation)
    case Op(code, args) =>
      OpcodeFits(c, code, EncodeArgs(args)) && ArgsFit(c, CodeInfo(c, code).args, args)
  }

  predicate WellFormedTerms(c: Context, ts: seq<Term>)
    decreases ts, 0
  {
    ts == [] || (WellFormed(c, ts[0]) && WellFormedTerms(c, ts[1..]))
  }

  /**
   The opcode is the table's, is an expression with fixed arguments, and is not mistaken for
   another by what follows.
   */
  predicate OpcodeFits(c: Context, code: Bytes, next: Bytes) {
    (|code| == 1 || |code| == 2) && code[0] in c.table &&
    (if |code| == 1 then
       !IsDataId(code[0]) &&
       (c.table[code[0]].sub.None? ||
        (c.table[code[0]].sub.value.isOptional && next != [] && next[0] !in c.table[code[0]].sub.value.entries))
     else
       !IsDataId(code[0] as nat + 256 * code[1] as nat) &&
       c.table[code[0]].sub.Some? && code[1] in c.table[code[0]].sub.value.entries) &&
    CodeInfo(c, code).isExpression && !CodeInfo(c, code).hasVariable
  }

  function CodeInfo(c: Context, code: Bytes): OpInfo
    requires |code| == 1 || |code| == 2
    requires code[0] in c.table
    requires |code| == 2 ==> c.table[code[0]].sub.Some? && code[1] in c.table[code[0]].sub.value.entries
  {
    if |code| == 1 then c.table[code[0]].info else c.table[code[0]].sub.value.entries[code[1]]
  }

  predicate ArgsFit(c: Context, types: seq<ArgType>, args: seq<Arg>)
    decreases args, 0
  {
    |types| == |args| &&
    (args == [] || (ArgFits(c, types[0], args[0]) && ArgsFit(c, types[1..], args[1..])))
  }

  predicate ArgFits(c: Context, ty: ArgType, a: Arg)
    decreases a, 0
  {
    match a
    case TermValue(t) => ty.TermArgArg? && WellFormed(c, t)
    case RawData(b) =>
      (ty.ByteDataArg? && |b| == 1) || (ty.WordDataArg? && |b| == 2) ||
      (ty.DWordDataArg? && |b| == 4) || (ty.QWordDataArg? && |b| == 8)
    case NullTarget => (ty.TargetArg? || ty.SuperNameNoInvocationArg?) && Plain(c, 0)
    case NamedTarget(name, invocation) =>
      NameOk(name) && NonNull(name) &&
      (if ty.SuperNameArg? || ty.TargetArg? then
         |invocation| == MethodArgs(c, ParsedName(name)) && WellFormedTerms(c, invocation)
       else (ty.SuperNameNoInvocationArg? || ty.SimpleNameArg? || ty.NameStringArg?) && invocation == [])
    case DebugTarget =>
      (ty.SuperNameArg? || ty.SuperNameNoInvocationArg? || ty.TargetArg?) &&
      0x5B in c.table && c.table[0x5B].sub.Some? && 0x31 in c.table[0x5B].sub.value.entries
    case ReferenceTarget(code, args) =>
      (ty.SuperNameArg? || ty.SuperNameNoInvocationArg? || ty.TargetArg?) &&
      (code == REF_OF_OP || code == DEREF_OF_OP || code == INDEX_OP) && Plain(c, code) &&
      !c.table[code].info.hasVariable && ArgsFit(c, c.table[code].info.args, args)
    case SimpleArgObj(n) => ty.SimpleNameArg? && n < 7
    case SimpleLocalObj(n) => ty.SimpleNameArg? && n < 8
  }

  // -------------------------------------------------------------- depth

  function Max(a: nat, b: nat): nat {
    if a < b then b else a
  }

  /** The recursion depth skipping the term uses. */
  function Depth(t: Term): nat {
    match t
    case NameRef(_, invocation) => 1 + TermsDepth(invocation)
    case Op(_, args) => 2 + ArgsDepth(args)
    case _ => 1
  }

  function TermsDepth(ts: seq<Term>): nat {
    if ts == [] then 0 else Max(Depth(ts[0]), TermsDepth(ts[1..]))
  }

  function ArgsDepth(args: seq<Arg>): nat {
    if args == [] then 0 else Max(ArgDepth(args[0]), ArgsDepth(args[1..]))
  }

  function ArgDepth(a: Arg): nat {
    match a
    case TermValue(t) => Depth(t)
    case NamedTarget(_, invocation) => TermsDepth(invocation)
    case ReferenceTarget(_, args) => 1 + ArgsDepth(args)
    case _ => 0
  }

  /** The encoding ends with a VarPackage, which must not be the last thing in the window. */
  predicate EndsInVarPackage(t: Term) {
    match t
    case VarPackage(_) => true
    case NameRef(_, invocation) => TermsEndInVarPackage(invocation)
    case Op(_, args) => ArgsEndInVarPackage(args)
    case _ => false
  }

  predicate TermsEndInVarPackage(ts: seq<Term>) {
    ts != [] && if |ts| == 1 then EndsInVarPackage(ts[0]) else TermsEndInVarPackage(ts[1..])
  }

  predicate ArgsEndInVarPackage(args: seq<Arg>) {
    args != [] && if |args| == 1 then ArgEndsInVarPackage(args[0]) else ArgsEndInVarPackage(args[1..])
  }

  predicate ArgEndsInVarPackage(a: Arg) {
    match a
    case TermValue(t) => EndsInVarPackage(t)
    case NamedTarget(_, invocation) => TermsEndInVarPackage(invocation)
    case ReferenceTarget(_, args) => ArgsEndInVarPackage(args)
    case _ => false
  }

  // ------------------------------------------------------- name strings

  lemma {:induction false} PrefixSkips(w: Bytes, cur: nat, count: nat, pre: Bytes)
    requires At(w, cur, pre) && cur + |pre| < |w| && count + |pre| < NAME_MAX_PREFIX_COUNT
    requires forall i: nat | i < |pre| :: pre[i] == ROOT_CHAR || pre[i] == PARENT_CHAR
    requires w[cur + |pre|] != ROOT_CHAR && w[cur + |pre|] != PARENT_CHAR
    ensures PrefixEnd(w, cur, count) == R(true, cur + |pre|)
    decreases |pre|
  {
    if pre != [] {
      AtFirst(w, cur, pre);
      assert pre == [pre[0]] + pre[1..];
      AtSplit(w, cur, [pre[0]], pre[1..]);
      PrefixSkips(w, cur + 1, count + 1, pre[1..]);
    }
  }

  lemma {:induction false} SegmentsSkip(w: Bytes, cur: nat, segs: seq<Bytes>)
    requires At(w, cur, Concat(segs))
    requires SegsOk(segs)
    ensures ConsumeSegments(w, cur, |segs|) == (R(true, cur + |Concat(segs)|), segs)
    decreases |segs|
  {
    if segs != [] {
      AtSplit(w, cur, segs[0], Concat(segs[1..]));
      AtFirst(w, cur, segs[0]);
      AtIs(w, cur, segs[0]);
      SegmentsSkip(w, cur + 4, segs[1..]);
      assert [segs[0]] + segs[1..] == segs;
    }
  }

  lemma PathFirst(p: NamePath)
    requires p.Multi? ==> |p.segs| < 256
    requires SegsOk(PathSegments(p))
    ensures EncodePath(p) != []
    ensures match p
            case NullName => EncodePath(p)[0] == 0
            case Single(_) => IsLeadNameChar(EncodePath(p)[0])
            case Dual(_, _) => EncodePath(p)[0] == DUAL_NAME_PREFIX
            case Multi(_) => EncodePath(p)[0] == MULTI_NAME_PREFIX
  {
  }

  /** The path at p has those segments and ends at end. */
  ghost predicate PathTo(w: Bytes, p: nat, end: nat, segs: seq<Bytes>) {
    p < |w| && forall key :: Open(PATH, key) ==> ConsumeNamePath(w, p) == (R(true, end), segs)
  }

  lemma NullSkips(w: Bytes, p: nat)
    requires At(w, p, [0])
    ensures PathTo(w, p, p + 1, [])
  {
    AtFirst(w, p, [0]);
  }

  lemma SingleSkips(w: Bytes, p: nat, seg: Bytes)
    requires SegOk(seg) && At(w, p, seg)
    ensures PathTo(w, p, p + |seg|, [seg])
  {
    AtFirst(w, p, seg);
    assert Concat([seg]) == seg + Concat([]) == seg;
    SegmentsSkip(w, p, [seg]);
  }

  lemma DualSkips(w: Bytes, p: nat, segs: seq<Bytes>)
    requires |segs| == 2 && SegsOk(segs) && At(w, p, [DUAL_NAME_PREFIX] + Concat(segs))
    ensures PathTo(w, p, p + 1 + |Concat(segs)|, segs)
  {
    AtFirst(w, p, [DUAL_NAME_PREFIX] + Concat(segs));
    AtSplit(w, p, [DUAL_NAME_PREFIX], Concat(segs));
    SegmentsSkip(w, p + 1, segs);
  }

  lemma MultiSkips(w: Bytes, p: nat, segs: seq<Bytes>)
    requires |segs| < 256 && SegsOk(segs) && At(w, p, [MULTI_NAME_PREFIX, |segs| % 256] + Concat(segs))
    ensures PathTo(w, p, p + 2 + |Concat(segs)|, segs)
  {
    var head := [MULTI_NAME_PREFIX, |segs| % 256];
    AtSplit(w, p, head, Concat(segs));
    AtFirst(w, p, head);
    AtSecond(w, p, head);
    SegmentsSkip(w, p + |head|, segs);
    MultiFrom(w, p, segs);
  }

  lemma MultiFrom(w: Bytes, p: nat, segs: seq<Bytes>)
    requires p + 2 <= |w| && w[p] == MULTI_NAME_PREFIX && w[p + 1] == |segs|
    requires ConsumeSegments(w, p + 2, |segs|) == (R(true, p + 2 + |Concat(segs)|), segs)
    ensures PathTo(w, p, p + 2 + |Concat(segs)|, segs)
  {
  }

  /** The path after the prefix is consumed whole. */
  lemma PathSkips(w: Bytes, p: nat, path: NamePath)
    requires path.Multi? ==> |path.segs| < 256
    requires SegsOk(PathSegments(path))
    requires At(w, p, EncodePath(path))
    ensures PathTo(w, p, p + |EncodePath(path)|, PathSegments(path))
  {
    match path
    case NullName => NullSkips(w, p);
    case Single(seg) => SingleSkips(w, p, seg);
    case Dual(a, b) => DualSkips(w, p, [a, b]);
    case Multi(segs) => MultiSkips(w, p, segs);
  }

  /** A name string is consumed whole, and its prefix and segments are what was encoded. */
  lemma NameSkips(w: Bytes, cur: nat, n: NameString)
    requires NameOk(n) && At(w, cur, EncodeName(n))
    ensures ConsumeNameString(w, cur) == (R(true, cur + |EncodeName(n)|), ParsedName(n))
  {
    var prefix, path := EncodePrefix(n.prefix), EncodePath(n.path);
    AtSplit(w, cur, prefix, path);
    var p := cur + |prefix|;
    PathFirst(n.path);
    AtFirst(w, p, path);
    PrefixSkips(w, cur, 0, prefix);
    PathSkips(w, p, n.path);
    assert Open(PATH, 0);
    AtIs(w, cur, prefix);
  }
}
