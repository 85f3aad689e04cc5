/**
 Skipping agrees with encoding: the skipper consumes exactly the encoded term.
 */
module SkipTheorem {
  import opened Bits
  import opened Decoder
  import opened Encoding
  import opened Folding

  // -------------------------------------------------------- data objects

  /** An opcode of a data object is in the table and has one byte. */
  lemma PeekData(c: Context, w: Bytes, cur: nat, b: nat)
    requires TableOk(c) && b < 256 && IsDataId(b) && cur < |w| && w[cur] == b
    ensures Plain(c, b) && PeekOpcode(c, w, cur) == Some(Opcode(b, false, c.table[b].info))
    ensures MatchOpcode(c, w, cur, b) == R(true, cur + 1)
  {
  }

  lemma PeekPlain(c: Context, w: Bytes, cur: nat, b: nat)
    requires cur < |w| && w[cur] == b && Plain(c, b)
    ensures PeekOpcode(c, w, cur) == Some(Opcode(b, false, c.table[b].info))
  {
  }

  lemma ConstDataAt(w: Bytes, cur: nat, b: Bytes)
    requires At(w, cur, b) && b != []
    ensures ConstData(w, cur, |b|) == (R(true, cur + |b|), FromLE(b))
  {
    AtIs(w, cur, b);
  }

  lemma ConstMatches(c: Context, w: Bytes, cur: nat, prefix: byte, b: Bytes)
    requires TableOk(c) && At(w, cur, [prefix] + b)
    requires SizeOfConst(prefix) == |b| > 0
    ensures MatchConstInteger(c, w, cur) == (R(true, cur + 1 + |b|), FromLE(b))
  {
    AtSplit(w, cur, [prefix], b);
    AtFirst(w, cur, [prefix]);
    PeekData(c, w, cur, prefix);
    ConstDataAt(w, cur + 1, b);
  }

  lemma ConstChosen(c: Context, w: Bytes, cur: nat)
    requires cur <= |w| && MatchConstInteger(c, w, cur).0.ok
    ensures MatchDataObject(c, w, cur) == MatchConstInteger(c, w, cur).0
  {
  }

  lemma ConstSkips(c: Context, w: Bytes, cur: nat, prefix: byte, b: Bytes)
    requires TableOk(c) && At(w, cur, [prefix] + b)
    requires SizeOfConst(prefix) == |b| > 0
    ensures MatchDataObject(c, w, cur) == R(true, cur + 1 + |b|)
  {
    ConstMatches(c, w, cur, prefix, b);
    ConstChosen(c, w, cur);
  }

  lemma ZeroOneOnesSkip(c: Context, w: Bytes, cur: nat)
    requires TableOk(c) && cur < |w| && (w[cur] == ZERO_OP || w[cur] == ONE_OP || w[cur] == ONES_OP)
    ensures MatchDataObject(c, w, cur) == R(true, cur + 1)
  {
    PeekData(c, w, cur, w[cur]);
  }

  lemma {:induction false} AsciiSkips(w: Bytes, cur: nat, chars: Bytes)
    requires At(w, cur, chars + [0]) && StringChars(chars)
    ensures ConsumeAsciiZ(w, cur) == R(true, cur + |chars| + 1)
    decreases |chars|
  {
    AtFirst(w, cur, chars + [0]);
    if chars != [] {
      assert chars + [0] == [chars[0]] + (chars[1..] + [0]);
      AtSplit(w, cur, [chars[0]], chars[1..] + [0]);
      AsciiSkips(w, cur + 1, chars[1..]);
    }
  }

  lemma StringMatches(c: Context, w: Bytes, cur: nat, chars: Bytes)
    requires TableOk(c) && At(w, cur, [STRING_PREFIX] + (chars + [0])) && StringChars(chars)
    ensures PeekOpcode(c, w, cur).Some? && PeekOpcode(c, w, cur).value.id == STRING_PREFIX
    ensures MatchString(c, w, cur) == R(true, cur + |chars| + 2)
  {
    AtSplit(w, cur, [STRING_PREFIX], chars + [0]);
    AtFirst(w, cur, [STRING_PREFIX]);
    PeekData(c, w, cur, STRING_PREFIX);
    AsciiSkips(w, cur + 1, chars);
  }

  lemma StringChosen(c: Context, w: Bytes, cur: nat)
    requires cur <= |w| && PeekOpcode(c, w, cur).Some? && PeekOpcode(c, w, cur).value.id == STRING_PREFIX
    requires MatchString(c, w, cur).ok
    ensures MatchDataObject(c, w, cur) == MatchString(c, w, cur)
  {
  }

  lemma StringSkips(c: Context, w: Bytes, cur: nat, chars: Bytes)
    requires TableOk(c) && At(w, cur, [STRING_PREFIX] + chars + [0]) && StringChars(chars)
    ensures MatchDataObject(c, w, cur) == R(true, cur + |chars| + 2)
  {
    assert [STRING_PREFIX] + chars + [0] == [STRING_PREFIX] + (chars + [0]);
    StringMatches(c, w, cur, chars);
    StringChosen(c, w, cur);
  }

  /** The package length in front of a body decodes to the size of the whole package. */
  lemma PackageDecodes(w: Bytes, cur: nat, body: Bytes)
    requires PackageFits(|body|) && At(w, cur, EncodePackage(body))
    ensures var extra := PackageExtra(|body|);
            ConsumePackageLength(w, cur) == (R(true, cur + 1 + extra), 1 + extra + |body|) &&
            At(w, cur + 1 + extra, body)
  {
    var extra := PackageExtra(|body|);
    PackageLengthFits(|body|);
    AtSplit(w, cur, EncodePkgLengthAs(1 + extra + |body|, extra), body);
    PkgLengthRoundTrip(w, cur, 1 + extra + |body|, extra);
  }

  lemma BufferSkips(c: Context, w: Bytes, cur: nat, body: Bytes)
    requires TableOk(c) && PackageFits(|body|) && At(w, cur, [BUFFER_OP] + EncodePackage(body))
    ensures MatchDataObject(c, w, cur) == R(true, cur + 1 + |EncodePackage(body)|)
  {
    AtSplit(w, cur, [BUFFER_OP], EncodePackage(body));
    AtFirst(w, cur, [BUFFER_OP]);
    PeekData(c, w, cur, BUFFER_OP);
    PackageDecodes(w, cur + 1, body);
  }

  lemma PackageSkips(c: Context, w: Bytes, cur: nat, count: byte, body: Bytes)
    requires TableOk(c) && PackageFits(1 + |body|) && At(w, cur, [PACKAGE_OP] + EncodePackage([count] + body))
    ensures MatchDataObject(c, w, cur) == R(true, cur + 1 + |EncodePackage([count] + body)|)
  {
    AtSplit(w, cur, [PACKAGE_OP], EncodePackage([count] + body));
    AtFirst(w, cur, [PACKAGE_OP]);
    PeekData(c, w, cur, PACKAGE_OP);
    PackageDecodes(w, cur + 1, [count] + body);
    assert MatchComputational(c, w, cur) == R(false, cur);
  }

  /** A VarPackage is matched exactly when the window goes on after it. */
  lemma VarPackageMatches(c: Context, w: Bytes, cur: nat, body: Bytes)
    requires TableOk(c) && PackageFits(|body|) && At(w, cur, [VAR_PACKAGE_OP] + EncodePackage(body))
    ensures var end := cur + 1 + |EncodePackage(body)|;
            MatchVarPackage(c, w, cur).ok <==> end < |w|
    ensures var end := cur + 1 + |EncodePackage(body)|;
            end < |w| ==> MatchDataObject(c, w, cur) == R(true, end)
  {
    AtSplit(w, cur, [VAR_PACKAGE_OP], EncodePackage(body));
    AtFirst(w, cur, [VAR_PACKAGE_OP]);
    PeekData(c, w, cur, VAR_PACKAGE_OP);
    PackageDecodes(w, cur + 1, body);
    assert MatchComputational(c, w, cur) == R(false, cur);
    assert MatchPackage(c, w, cur) == R(false, cur);
  }

  lemma ArgLocalSkips(c: Context, w: Bytes, cur: nat, id: nat)
    requires TableOk(c) && cur < |w| && w[cur] == id && LOCAL0_OP <= id <= ARG6_OP
    ensures MatchDataObject(c, w, cur) == R(false, cur)
    ensures id >= ARG0_OP ==> MatchArgObj(c, w, cur) == R(true, cur + 1)
    ensures id <= LOCAL7_OP ==> MatchArgObj(c, w, cur) == R(false, cur) && MatchLocalObj(c, w, cur) == R(true, cur + 1)
  {
    PeekData(c, w, cur, id);
  }

  // --------------------------------------------------------- terms, names

  /** Every well-formed term and argument has at least one byte. */
  lemma EncodeNonEmpty(c: Context, t: Term)
    requires WellFormed(c, t)
    ensures Encode(t) != []
  {
  }

  lemma EncodeArgNonEmpty(c: Context, ty: ArgType, a: Arg)
    requires ArgFits(c, ty, a)
    ensures EncodeArg(a) != []
  {
  }

  /** What a VarPackage at the very end needs: the window goes on. */
  predicate GoesOn(w: Bytes, end: nat, needed: bool) {
    needed ==> end < |w|
  }

  lemma DataSkips(c: Context, w: Bytes, cur: nat, t: Term)
    requires TableOk(c) && WellFormed(c, t) && At(w, cur, Encode(t))
    requires !t.ArgObj? && !t.LocalObj? && !t.NameRef? && !t.Op?
    requires GoesOn(w, cur + |Encode(t)|, EndsInVarPackage(t))
    ensures MatchDataObject(c, w, cur) == R(true, cur + |Encode(t)|)
  {
    AtFirst(w, cur, Encode(t));
    match t
    case Zero => ZeroOneOnesSkip(c, w, cur);
    case One => ZeroOneOnesSkip(c, w, cur);
    case Ones => ZeroOneOnesSkip(c, w, cur);
    case ByteConst(b) => ConstSkips(c, w, cur, BYTE_PREFIX, b);
    case WordConst(b) => ConstSkips(c, w, cur, WORD_PREFIX, b);
    case DWordConst(b) => ConstSkips(c, w, cur, DWORD_PREFIX, b);
    case QWordConst(b) => ConstSkips(c, w, cur, QWORD_PREFIX, b);
    case Str(chars) => StringSkips(c, w, cur, chars);
    case Buffer(body) => BufferSkips(c, w, cur, body);
    case Package(count, body) => PackageSkips(c, w, cur, count, body);
    case VarPackage(body) => VarPackageMatches(c, w, cur, body);
  }

  /** What the skipper sees where a name begins: an opcode nothing but the name case claims. */
  predicate SeesName(c: Context, w: Bytes, cur: nat) {
    cur < |w| && IsNameByte(w[cur]) && PeekOpcode(c, w, cur).Some? && PeekOpcode(c, w, cur).value.id == w[cur] &&
    !PeekOpcode(c, w, cur).value.info.isExpression
  }

  lemma NameByte(c: Context, w: Bytes, cur: nat, n: NameString)
    requires TableOk(c) && NameOk(n) && NonNull(n) && At(w, cur, EncodeName(n))
    ensures SeesName(c, w, cur)
  {
    PathFirst(n.path);
    var s := EncodeName(n);
    AtFirst(w, cur, s);
    assert n.prefix == Parents(0) ==> s == EncodePath(n.path);
    assert IsNameByte(s[0]);
    PeekPlain(c, w, cur, w[cur]);
  }

  /** A name followed by anything: what is seen, where the name ends, and where the rest begins. */
  lemma NameThenRest(c: Context, w: Bytes, cur: nat, n: NameString, rest: Bytes)
    requires TableOk(c) && NameOk(n) && NonNull(n) && At(w, cur, EncodeName(n) + rest)
    ensures SeesName(c, w, cur)
    ensures cur + |EncodeName(n)| <= |w| && At(w, cur + |EncodeName(n)|, rest)
    ensures ConsumeNameString(w, cur) == (R(true, cur + |EncodeName(n)|), ParsedName(n))
  {
    AtSplit(w, cur, EncodeName(n), rest);
    NameByte(c, w, cur, n);
    NameSkips(w, cur, n);
  }

  /** The opcode of an operator is peeked as the table has it, whatever follows. */
  lemma OpPeek(c: Context, w: Bytes, cur: nat, code: Bytes, rest: Bytes)
    requires OpcodeFits(c, code, rest) && At(w, cur, code + rest)
    ensures var p := PeekOpcode(c, w, cur);
            p.Some? && !IsDataId(p.value.id) && p.value.info == CodeInfo(c, code) && OpcodeSize(p.value) == |code|
  {
    AtFirst(w, cur, code + rest);
    if |code| == 2 {
      AtSecond(w, cur, code + rest);
    } else if rest != [] {
      AtSecond(w, cur, code + rest);
    }
  }

  // ------------------------------------------ one step of each skipper

  lemma TermArgIsExpression(c: Context, w: Bytes, cur: nat, room: nat)
    requires room > 0 && cur <= |w|
    requires PeekOpcode(c, w, cur).None? || !IsDataId(PeekOpcode(c, w, cur).value.id)
    ensures ConsumeTermArg(c, w, cur, room) == ConsumeExpression(c, w, cur, room - 1)
  {
  }

  lemma TermArgIsName(c: Context, w: Bytes, cur: nat, room: nat, next: nat, name: Name)
    requires room > 0 && SeesName(c, w, cur)
    requires cur <= next <= |w| && ConsumeNameString(w, cur) == (R(true, next), name)
    ensures ConsumeTermArg(c, w, cur, room) == ConsumeTermArgs(c, w, next, room - 1, MethodArgs(c, name))
  {
    TermArgIsExpression(c, w, cur, room);
  }

  lemma ExpressionIsOp(c: Context, w: Bytes, cur: nat, room: nat, o: Opcode)
    requires cur <= |w| && room > 0 && PeekOpcode(c, w, cur) == Some(o)
    requires o.info.isExpression && !o.info.hasVariable
    ensures ConsumeExpression(c, w, cur, room) ==
            ConsumeArgs(c, w, cur + OpcodeSize(o), cur + OpcodeSize(o), room - 1, o.info.args)
  {
  }

  lemma SuperNameIsNamed(c: Context, w: Bytes, cur: nat, room: nat, invoke: bool)
    requires cur <= |w| && PeekOpcode(c, w, cur).Some?
    requires var id := PeekOpcode(c, w, cur).value.id;
             id == 0 || IsNameByte(id)
    ensures ConsumeSuperName(c, w, cur, room, invoke) == NullOrNamed(c, w, cur, room, invoke)
  {
  }

  lemma SuperNameIsName(c: Context, w: Bytes, cur: nat, room: nat, invoke: bool, next: nat, name: Name)
    requires SeesName(c, w, cur) && cur <= next <= |w| && ConsumeNameString(w, cur) == (R(true, next), name)
    ensures ConsumeSuperName(c, w, cur, room, invoke) ==
            if invoke then ConsumeTermArgs(c, w, next, room, MethodArgs(c, name)) else R(true, next)
  {
  }

  lemma SimpleIsName(c: Context, w: Bytes, cur: nat)
    requires SeesName(c, w, cur)
    ensures ConsumeSimpleName(c, w, cur) == ConsumeNameString(w, cur).0
  {
  }

  // -------------------------------------------- skipping to a given end

  /** One TermArg is skipped from cur to end. */
  ghost predicate TermTo(c: Context, w: Bytes, cur: nat, room: nat, end: nat)
    requires cur <= |w|
  {
    forall key :: Open(TERM, key) ==> ConsumeTermArg(c, w, cur, room) == R(true, end)
  }

  ghost predicate TermsTo(c: Context, w: Bytes, cur: nat, room: nat, n: nat, end: nat)
    requires cur <= |w|
  {
    forall key :: Open(TERMS, key) ==> ConsumeTermArgs(c, w, cur, room, n) == R(true, end)
  }

  ghost predicate ArgTo(c: Context, w: Bytes, start: nat, cur: nat, room: nat, ty: ArgType, end: nat)
    requires start <= cur <= |w|
  {
    forall key :: Open(ARG, key) ==> ConsumeArg(c, w, start, cur, room, ty) == R(true, end)
  }

  ghost predicate ArgsTo(c: Context, w: Bytes, start: nat, cur: nat, room: nat, types: seq<ArgType>, end: nat)
    requires start <= cur <= |w|
  {
    forall key :: Open(ARGS, key) ==> ConsumeArgs(c, w, start, cur, room, types) == R(true, end)
  }

  lemma NoTerms(c: Context, w: Bytes, cur: nat, room: nat)
    requires cur <= |w|
    ensures TermsTo(c, w, cur, room, 0, cur)
  {
  }

  lemma FirstTerm(c: Context, w: Bytes, cur: nat, room: nat, n: nat, next: nat, end: nat)
    requires cur <= next <= |w| && n > 0
    requires TermTo(c, w, cur, room, next) && TermsTo(c, w, next, room, n - 1, end)
    ensures TermsTo(c, w, cur, room, n, end)
  {
    assert Open(TERM, 0) && Open(TERMS, 0);
  }

  lemma NoArgs(c: Context, w: Bytes, start: nat, cur: nat, room: nat)
    requires start <= cur <= |w|
    ensures ArgsTo(c, w, start, cur, room, [], cur)
  {
  }

  lemma FirstArg(c: Context, w: Bytes, start: nat, cur: nat, room: nat, types: seq<ArgType>, next: nat, end: nat)
    requires start <= cur <= next <= |w| && types != [] && !types[0].AsciiCharListArg?
    requires ArgTo(c, w, start, cur, room, types[0], next) && ArgsTo(c, w, start, next, room, types[1..], end)
    ensures ArgsTo(c, w, start, cur, room, types, end)
  {
    assert Open(ARG, 0) && Open(ARGS, 0);
  }

  /** A name that stands from cur to next and takes n arguments. */
  ghost predicate NamesMethod(c: Context, w: Bytes, cur: nat, next: nat, name: Name, n: nat) {
    forall key :: Open(NAMED, key) ==>
      SeesName(c, w, cur) && ConsumeNameString(w, cur) == (R(true, next), name) && n == MethodArgs(c, name)
  }

  lemma InvocationTo(c: Context, w: Bytes, cur: nat, room: nat, next: nat, name: Name, n: nat, end: nat)
    requires room > 0 && cur <= next <= |w| && NamesMethod(c, w, cur, next, name, n)
    requires TermsTo(c, w, next, room - 1, n, end)
    ensures TermTo(c, w, cur, room, end)
  {
    assert Open(NAMED, 0) && Open(TERMS, 0);
    TermArgIsName(c, w, cur, room, next, name);
  }

  lemma OperatorTo(c: Context, w: Bytes, cur: nat, room: nat, o: Opcode, begin: nat, end: nat)
    requires cur <= |w| && room > 1 && PeekOpcode(c, w, cur) == Some(o) && !IsDataId(o.id)
    requires o.info.isExpression && !o.info.hasVariable && begin == cur + OpcodeSize(o) <= |w|
    requires ArgsTo(c, w, begin, begin, room - 2, o.info.args, end)
    ensures TermTo(c, w, cur, room, end)
  {
    assert Open(ARGS, 0);
    TermArgIsExpression(c, w, cur, room);
    ExpressionIsOp(c, w, cur, room - 1, o);
  }

  lemma TermArgTo(c: Context, w: Bytes, start: nat, cur: nat, room: nat, end: nat)
    requires start <= cur <= |w| && TermTo(c, w, cur, room, end)
    ensures ArgTo(c, w, start, cur, room, TermArgArg, end)
  {
    assert Open(TERM, 0);
  }

  lemma SuperNameTo(c: Context, w: Bytes, start: nat, cur: nat, room: nat, ty: ArgType, end: nat)
    requires start <= cur < |w| && w[cur] != 0
    requires ty.SuperNameArg? || ty.SuperNameNoInvocationArg? || ty.TargetArg?
    requires ConsumeSuperName(c, w, cur, room, !ty.SuperNameNoInvocationArg?) == R(true, end)
    ensures ArgTo(c, w, start, cur, room, ty, end)
  {
  }

  lemma InvokedNameTo(c: Context, w: Bytes, start: nat, cur: nat, room: nat, ty: ArgType, next: nat, name: Name,
                      end: nat)
    requires start <= cur && SeesName(c, w, cur) && cur <= next <= |w| &&
             ConsumeNameString(w, cur) == (R(true, next), name)
    requires (ty.SuperNameArg? || ty.TargetArg?) && TermsTo(c, w, next, room, MethodArgs(c, name), end)
    ensures ArgTo(c, w, start, cur, room, ty, end)
  {
    assert Open(TERMS, 0);
    SuperNameIsName(c, w, cur, room, true, next, name);
    SuperNameTo(c, w, start, cur, room, ty, end);
  }

  lemma PlainNameTo(c: Context, w: Bytes, start: nat, cur: nat, room: nat, ty: ArgType, next: nat, name: Name)
    requires start <= cur && SeesName(c, w, cur) && cur <= next <= |w| &&
             ConsumeNameString(w, cur) == (R(true, next), name)
    requires ty.SuperNameNoInvocationArg? || ty.SimpleNameArg? || ty.NameStringArg?
    ensures ArgTo(c, w, start, cur, room, ty, next)
  {
    if ty.SimpleNameArg? {
      SimpleIsName(c, w, cur);
    } else if ty.SuperNameNoInvocationArg? {
      SuperNameIsName(c, w, cur, room, false, next, name);
      SuperNameTo(c, w, start, cur, room, ty, next);
    }
  }

  lemma ReferenceTo(c: Context, w: Bytes, start: nat, cur: nat, room: nat, ty: ArgType, o: Opcode, end: nat)
    requires start <= cur < |w| && w[cur] != 0 && PeekOpcode(c, w, cur) == Some(o) && room > 0 && !o.isTwoByte
    requires o.id == REF_OF_OP || o.id == DEREF_OF_OP || o.id == INDEX_OP
    requires ty.SuperNameArg? || ty.SuperNameNoInvocationArg? || ty.TargetArg?
    requires !o.info.hasVariable && ArgsTo(c, w, cur + 1, cur + 1, room - 1, o.info.args, end)
    ensures ArgTo(c, w, start, cur, room, ty, end)
  {
    assert Open(ARGS, 0);
    assert ConsumeInstructionArgs(c, w, cur + 1, room, o.info) == R(true, end);
    SuperNameTo(c, w, start, cur, room, ty, end);
  }

  lemma DebugTo(c: Context, w: Bytes, start: nat, cur: nat, room: nat, ty: ArgType)
    requires start <= cur && ArgFits(c, ty, DebugTarget) && At(w, cur, EncodeArg(DebugTarget))
    ensures ArgTo(c, w, start, cur, room, ty, cur + 2)
  {
    AtFirst(w, cur, EncodeArg(DebugTarget));
    AtSecond(w, cur, EncodeArg(DebugTarget));
    SuperNameTo(c, w, start, cur, room, ty, cur + 2);
  }

  lemma NullTo(c: Context, w: Bytes, start: nat, cur: nat, room: nat, ty: ArgType)
    requires ArgFits(c, ty, NullTarget) && start <= cur < |w| && w[cur] == 0
    ensures ArgTo(c, w, start, cur, room, ty, cur + 1)
  {
    if ty.SuperNameNoInvocationArg? {
      PeekPlain(c, w, cur, 0);
      SuperNameIsNamed(c, w, cur, room, false);
    }
  }

  lemma SimpleTo(c: Context, w: Bytes, start: nat, cur: nat, room: nat, id: nat)
    requires TableOk(c) && start <= cur < |w| && w[cur] == id && LOCAL0_OP <= id <= ARG6_OP
    ensures ArgTo(c, w, start, cur, room, SimpleNameArg, cur + 1)
  {
    ArgLocalSkips(c, w, cur, id);
  }

  /** Constants, strings, buffers, packages, arguments and locals. */
  lemma LeafTo(c: Context, w: Bytes, cur: nat, room: nat, t: Term)
    requires TableOk(c) && WellFormed(c, t) && room > 0 && At(w, cur, Encode(t)) && !t.NameRef? && !t.Op?
    requires GoesOn(w, cur + |Encode(t)|, EndsInVarPackage(t))
    ensures TermTo(c, w, cur, room, cur + |Encode(t)|)
  {
    match t
    case ArgObj(n) =>
      AtFirst(w, cur, Encode(t));
      ArgLocalSkips(c, w, cur, ARG0_OP + n);
    case LocalObj(n) =>
      AtFirst(w, cur, Encode(t));
      ArgLocalSkips(c, w, cur, LOCAL0_OP + n);
    case _ => DataSkips(c, w, cur, t);
  }

  // ------------------------------------------------------ the main theorem

  /**
   For every well-formed term, at every place in every window, with enough recursion
   depth left, the skipper succeeds and stops exactly after the term's encoding.
   */
  lemma TermSkips(c: Context, w: Bytes, cur: nat, room: nat, t: Term)
    requires TableOk(c) && WellFormed(c, t) && Depth(t) <= room && At(w, cur, Encode(t))
    requires GoesOn(w, cur + |Encode(t)|, EndsInVarPackage(t))
    ensures ConsumeTermArg(c, w, cur, room) == R(true, cur + |Encode(t)|)
  {
    TermGoes(c, w, cur, room, t);
    assert Open(TERM, 0);
  }

  /** The same for the argument list of an instruction. */
  lemma ArgsSkip(c: Context, w: Bytes, start: nat, cur: nat, room: nat, types: seq<ArgType>, args: seq<Arg>)
    requires TableOk(c) && ArgsFit(c, types, args) && ArgsDepth(args) <= room && At(w, cur, EncodeArgs(args))
    requires GoesOn(w, cur + |EncodeArgs(args)|, ArgsEndInVarPackage(args)) && start <= cur
    ensures ConsumeArgs(c, w, start, cur, room, types) == R(true, cur + |EncodeArgs(args)|)
  {
    ArgsGo(c, w, start, cur, room, types, args);
    assert Open(ARGS, 0);
  }

  lemma {:induction false} TermGoes(c: Context, w: Bytes, cur: nat, room: nat, t: Term)
    requires TableOk(c) && WellFormed(c, t) && Depth(t) <= room && At(w, cur, Encode(t))
    requires GoesOn(w, cur + |Encode(t)|, EndsInVarPackage(t))
    ensures TermTo(c, w, cur, room, cur + |Encode(t)|)
    decreases t, 1
  {
    match t
    case NameRef(_, _) => InvocationGoes(c, w, cur, room, t, cur + |Encode(t)|);
    case Op(_, _) => OperatorGoes(c, w, cur, room, t);
    case _ => LeafTo(c, w, cur, room, t);
  }

  /** The term is well-formed, shallow enough, and encoded from cur to end. */
  ghost predicate TermReady(c: Context, w: Bytes, cur: nat, room: nat, t: Term, end: nat) {
    forall key :: Open(READY, key) ==>
      WellFormed(c, t) && Depth(t) <= room && At(w, cur, Encode(t)) &&
      end == cur + |Encode(t)| && GoesOn(w, end, EndsInVarPackage(t))
  }

  lemma {:induction false} InvocationGoes(c: Context, w: Bytes, cur: nat, room: nat, t: Term, end: nat)
    requires t.NameRef? && cur <= |w| && TableOk(c) && TermReady(c, w, cur, room, t, end)
    ensures TermTo(c, w, cur, room, end)
    decreases t, 0
  {
    var next, name := InvocationReady(c, w, cur, room, t, end);
    TermsGo(c, w, next, room - 1, t.invocation, end);
    InvocationTo(c, w, cur, room, next, name, |t.invocation|, end);
  }

  lemma {:induction false} OperatorGoes(c: Context, w: Bytes, cur: nat, room: nat, t: Term)
    requires t.Op?
    requires TableOk(c) && WellFormed(c, t) && Depth(t) <= room && At(w, cur, Encode(t))
    requires GoesOn(w, cur + |Encode(t)|, EndsInVarPackage(t))
    ensures TermTo(c, w, cur, room, cur + |Encode(t)|)
    decreases t, 0
  {
    AtSplit(w, cur, t.code, EncodeArgs(t.args));
    OpPeek(c, w, cur, t.code, EncodeArgs(t.args));
    var begin := cur + |t.code|;
    ArgsGo(c, w, begin, begin, room - 2, CodeInfo(c, t.code).args, t.args);
    OperatorTo(c, w, cur, room, PeekOpcode(c, w, cur).value, begin, cur + |Encode(t)|);
  }

  /** The terms are well-formed, shallow enough, and encoded from cur to end. */
  ghost predicate TermsReady(c: Context, w: Bytes, cur: nat, room: nat, ts: seq<Term>, end: nat) {
    forall key :: Open(READY, key) ==>
      WellFormedTerms(c, ts) && TermsDepth(ts) <= room && At(w, cur, EncodeTerms(ts)) &&
      end == cur + |EncodeTerms(ts)| && GoesOn(w, end, TermsEndInVarPackage(ts))
  }

  lemma InvocationReady(c: Context, w: Bytes, cur: nat, room: nat, t: Term, end: nat) returns (next: nat, name: Name)
    requires t.NameRef? && TableOk(c) && TermReady(c, w, cur, room, t, end)
    ensures room > 0 && cur <= next <= |w| && NamesMethod(c, w, cur, next, name, |t.invocation|)
    ensures TermsReady(c, w, next, room - 1, t.invocation, end)
  {
    assert Open(READY, 0);
    NameThenRest(c, w, cur, t.name, EncodeTerms(t.invocation));
    next, name := cur + |EncodeName(t.name)|, ParsedName(t.name);
  }

  /** A list of terms is its first term, after which the window goes on if it must, and the others. */
  lemma TermsSplit(c: Context, w: Bytes, cur: nat, ts: seq<Term>)
    requires ts != [] && WellFormedTerms(c, ts) && At(w, cur, EncodeTerms(ts))
    requires GoesOn(w, cur + |EncodeTerms(ts)|, TermsEndInVarPackage(ts))
    ensures |EncodeTerms(ts)| == |Encode(ts[0])| + |EncodeTerms(ts[1..])|
    ensures At(w, cur, Encode(ts[0])) && At(w, cur + |Encode(ts[0])|, EncodeTerms(ts[1..]))
    ensures GoesOn(w, cur + |Encode(ts[0])|, EndsInVarPackage(ts[0]))
    ensures GoesOn(w, cur + |EncodeTerms(ts)|, TermsEndInVarPackage(ts[1..]))
  {
    AtSplit(w, cur, Encode(ts[0]), EncodeTerms(ts[1..]));
    if |ts| > 1 {
      EncodeNonEmpty(c, ts[1]);
    }
  }

  lemma ArgsSplit(c: Context, w: Bytes, cur: nat, types: seq<ArgType>, args: seq<Arg>)
    requires args != [] && ArgsFit(c, types, args) && At(w, cur, EncodeArgs(args))
    requires GoesOn(w, cur + |EncodeArgs(args)|, ArgsEndInVarPackage(args))
    ensures |EncodeArgs(args)| == |EncodeArg(args[0])| + |EncodeArgs(args[1..])|
    ensures At(w, cur, EncodeArg(args[0])) && At(w, cur + |EncodeArg(args[0])|, EncodeArgs(args[1..]))
    ensures GoesOn(w, cur + |EncodeArg(args[0])|, ArgEndsInVarPackage(args[0]))
    ensures GoesOn(w, cur + |EncodeArgs(args)|, ArgsEndInVarPackage(args[1..]))
  {
    AtSplit(w, cur, EncodeArg(args[0]), EncodeArgs(args[1..]));
    if |args| > 1 {
      EncodeArgNonEmpty(c, types[1], args[1]);
    }
  }

  lemma FirstReady(c: Context, w: Bytes, cur: nat, room: nat, ts: seq<Term>, end: nat)
    requires ts != [] && TermsReady(c, w, cur, room, ts, end)
    ensures var next := cur + |Encode(ts[0])|;
            WellFormed(c, ts[0]) && Depth(ts[0]) <= room && At(w, cur, Encode(ts[0])) &&
            GoesOn(w, next, EndsInVarPackage(ts[0]))
  {
    assert Open(READY, 0);
    TermsSplit(c, w, cur, ts);
  }

  lemma RestReady(c: Context, w: Bytes, cur: nat, room: nat, ts: seq<Term>, end: nat)
    requires ts != [] && TermsReady(c, w, cur, room, ts, end)
    ensures TermsReady(c, w, cur + |Encode(ts[0])|, room, ts[1..], end)
  {
    assert Open(READY, 0);
    TermsSplit(c, w, cur, ts);
  }

  lemma NoneReady(c: Context, w: Bytes, cur: nat, room: nat, end: nat)
    requires TermsReady(c, w, cur, room, [], end)
    ensures end == cur <= |w|
  {
    assert Open(READY, 0);
  }

  lemma {:induction false} TermsGo(c: Context, w: Bytes, cur: nat, room: nat, ts: seq<Term>, end: nat)
    requires cur <= |w| && TableOk(c) && TermsReady(c, w, cur, room, ts, end)
    ensures TermsTo(c, w, cur, room, |ts|, end)
    decreases ts, 1
  {
    if ts == [] {
      NoneReady(c, w, cur, room, end);
      NoTerms(c, w, cur, room);
    } else {
      var next := FirstGoes(c, w, cur, room, ts, end);
      TermsGo(c, w, next, room, ts[1..], end);
      FirstTerm(c, w, cur, room, |ts|, next, end);
    }
  }

  lemma {:induction false} FirstGoes(c: Context, w: Bytes, cur: nat, room: nat, ts: seq<Term>, end: nat)
    returns (next: nat)
    requires cur <= |w| && TableOk(c) && ts != [] && TermsReady(c, w, cur, room, ts, end)
    ensures cur <= next <= |w| && TermTo(c, w, cur, room, next) && TermsReady(c, w, next, room, ts[1..], end)
    decreases ts, 0
  {
    FirstReady(c, w, cur, room, ts, end);
    TermGoes(c, w, cur, room, ts[0]);
    next := cur + |Encode(ts[0])|;
    RestReady(c, w, cur, room, ts, end);
  }

  lemma {:induction false} ArgsGo(c: Context, w: Bytes, start: nat, cur: nat, room: nat, types: seq<ArgType>,
                                  args: seq<Arg>)
    requires TableOk(c) && ArgsFit(c, types, args) && ArgsDepth(args) <= room && At(w, cur, EncodeArgs(args))
    requires GoesOn(w, cur + |EncodeArgs(args)|, ArgsEndInVarPackage(args)) && start <= cur
    ensures ArgsTo(c, w, start, cur, room, types, cur + |EncodeArgs(args)|)
    decreases args, 1
  {
    if args == [] {
      NoArgs(c, w, start, cur, room);
    } else {
      var next := cur + |EncodeArg(args[0])|;
      ArgsSplit(c, w, cur, types, args);
      ArgGoes(c, w, start, cur, room, types[0], args[0]);
      ArgsGo(c, w, start, next, room, types[1..], args[1..]);
      FirstArg(c, w, start, cur, room, types, next, cur + |EncodeArgs(args)|);
    }
  }

  lemma {:induction false} ArgGoes(c: Context, w: Bytes, start: nat, cur: nat, room: nat, ty: ArgType, a: Arg)
    requires TableOk(c) && ArgFits(c, ty, a) && ArgDepth(a) <= room && At(w, cur, EncodeArg(a))
    requires GoesOn(w, cur + |EncodeArg(a)|, ArgEndsInVarPackage(a)) && start <= cur
    ensures ArgTo(c, w, start, cur, room, ty, cur + |EncodeArg(a)|)
    decreases a, 3
  {
    EncodeArgNonEmpty(c, ty, a);
    AtFirst(w, cur, EncodeArg(a));
    match a
    case TermValue(t) =>
      TermGoes(c, w, cur, room, t);
      TermArgTo(c, w, start, cur, room, cur + |Encode(t)|);
    case RawData(b) =>
    case NullTarget => NullTo(c, w, start, cur, room, ty);
    case SimpleArgObj(n) => SimpleTo(c, w, start, cur, room, ARG0_OP + n);
    case SimpleLocalObj(n) => SimpleTo(c, w, start, cur, room, LOCAL0_OP + n);
    case DebugTarget => DebugTo(c, w, start, cur, room, ty);
    case NamedTarget(_, _) => NamedGoes(c, w, start, cur, room, ty, a);
    case ReferenceTarget(_, _) => ReferenceGoes(c, w, start, cur, room, ty, a);
  }

  lemma {:induction false} NamedGoes(c: Context, w: Bytes, start: nat, cur: nat, room: nat, ty: ArgType, a: Arg)
    requires a.NamedTarget?
    requires TableOk(c) && ArgFits(c, ty, a) && ArgDepth(a) <= room && At(w, cur, EncodeArg(a))
    requires GoesOn(w, cur + |EncodeArg(a)|, ArgEndsInVarPackage(a)) && start <= cur
    ensures ArgTo(c, w, start, cur, room, ty, cur + |EncodeArg(a)|)
    decreases a, 0
  {
    var next, end := cur + |EncodeName(a.name)|, cur + |EncodeArg(a)|;
    NameThenRest(c, w, cur, a.name, EncodeTerms(a.invocation));
    if ty.SuperNameArg? || ty.TargetArg? {
      assert TermsReady(c, w, next, room, a.invocation, end);
      TermsGo(c, w, next, room, a.invocation, end);
      InvokedNameTo(c, w, start, cur, room, ty, next, ParsedName(a.name), end);
    } else {
      PlainNameTo(c, w, start, cur, room, ty, next, ParsedName(a.name));
    }
  }

  lemma {:induction false} ReferenceGoes(c: Context, w: Bytes, start: nat, cur: nat, room: nat, ty: ArgType, a: Arg)
    requires a.ReferenceTarget?
    requires TableOk(c) && ArgFits(c, ty, a) && ArgDepth(a) <= room && At(w, cur, EncodeArg(a))
    requires GoesOn(w, cur + |EncodeArg(a)|, ArgEndsInVarPackage(a)) && start <= cur
    ensures ArgTo(c, w, start, cur, room, ty, cur + |EncodeArg(a)|)
    decreases a, 0
  {
    AtFirst(w, cur, EncodeArg(a));
    AtSplit(w, cur, [a.code % 256], EncodeArgs(a.args));
    PeekPlain(c, w, cur, a.code);
    ArgsGo(c, w, cur + 1, cur + 1, room - 1, c.table[a.code].info.args, a.args);
    ReferenceTo(c, w, start, cur, room, ty, PeekOpcode(c, w, cur).value, cur + |EncodeArg(a)|);
  }

  // ------------------------------------------- where skipping is not exact

  lemma DataAdvances(c: Context, w: Bytes, cur: nat)
    requires cur <= |w| && MatchDataObject(c, w, cur).ok
    ensures MatchDataObject(c, w, cur).cur == cur
       <==> PeekOpcode(c, w, cur).Some? && PeekOpcode(c, w, cur).value.id == REVISION_OP
  {
  }

  lemma ExpressionAdvances(c: Context, w: Bytes, cur: nat, room: nat)
    requires cur <= |w| && ConsumeExpression(c, w, cur, room).ok
    ensures ConsumeExpression(c, w, cur, room).cur > cur
  {
  }

  /** Past a failed data object, argument and local, a TermArg is an expression, which has at least one byte. */
  lemma NonDataAdvances(c: Context, w: Bytes, cur: nat, room: nat)
    requires cur <= |w| && room > 0 && !MatchDataObject(c, w, cur).ok
    ensures ConsumeTermArg(c, w, cur, room).ok ==> ConsumeTermArg(c, w, cur, room).cur > cur
  {
    var local := MatchLocalObj(c, w, MatchArgObj(c, w, MatchDataObject(c, w, cur).cur).cur);
    if ConsumeExpression(c, w, local.cur, room - 1).ok {
      ExpressionAdvances(c, w, local.cur, room - 1);
    }
  }

  lemma RevisionMatches(c: Context, w: Bytes, cur: nat)
    requires cur <= |w| && PeekOpcode(c, w, cur).Some? && PeekOpcode(c, w, cur).value.id == REVISION_OP
    ensures MatchDataObject(c, w, cur) == R(true, cur)
  {
  }

  /**
   A skipped TermArg is at least one byte long, with one exception: RevisionOp, which
   is recognised and left where it is, so its two bytes are read again as what follows.
   */
  lemma TermArgAdvances(c: Context, w: Bytes, cur: nat, room: nat)
    requires cur <= |w| && room > 0
    ensures var r := ConsumeTermArg(c, w, cur, room);
            r == R(true, cur) <==> PeekOpcode(c, w, cur).Some? && PeekOpcode(c, w, cur).value.id == REVISION_OP
  {
    if MatchDataObject(c, w, cur).ok {
      DataAdvances(c, w, cur);
    } else {
      NonDataAdvances(c, w, cur, room);
      if PeekOpcode(c, w, cur).Some? && PeekOpcode(c, w, cur).value.id == REVISION_OP {
        RevisionMatches(c, w, cur);
      }
    }
  }

  /** A skipped SuperName is at least one byte long, except a local or an argument, which is left where it is. */
  lemma SuperNameAdvances(c: Context, w: Bytes, cur: nat, room: nat, invoke: bool)
    requires cur <= |w|
    ensures var r := ConsumeSuperName(c, w, cur, room, invoke);
            r == R(true, cur) <==>
            PeekOpcode(c, w, cur).Some? && (LOCAL0_OP <= PeekOpcode(c, w, cur).value.id <= LOCAL7_OP ||
                                            ARG0_OP <= PeekOpcode(c, w, cur).value.id <= ARG6_OP)
  {
  }

  /** Sixteen prefix characters are one too many, although the name has room for them. */
  lemma {:induction false} PrefixLimit(w: Bytes, cur: nat, count: nat, pre: Bytes)
    requires At(w, cur, pre) && cur + |pre| < |w| && count <= NAME_MAX_PREFIX_COUNT
    requires forall i: nat | i < |pre| :: pre[i] == ROOT_CHAR || pre[i] == PARENT_CHAR
    requires w[cur + |pre|] != ROOT_CHAR && w[cur + |pre|] != PARENT_CHAR
    ensures PrefixEnd(w, cur, count).ok <==> count + |pre| < NAME_MAX_PREFIX_COUNT
    decreases |pre|
  {
    if pre != [] && count < NAME_MAX_PREFIX_COUNT {
      AtFirst(w, cur, pre);
      assert pre == [pre[0]] + pre[1..];
      AtSplit(w, cur, [pre[0]], pre[1..]);
      PrefixLimit(w, cur + 1, count + 1, pre[1..]);
    }
  }
}
