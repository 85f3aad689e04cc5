/**
 The opcode table (src/aml_decoder_tables.inc.h): every opcode, with the argument list
 the table gives it and whether a list of its own follows that.
 */
module OpcodeTable {
  import opened Bits
  import opened Decoder
  import opened Encoding

  const EXT_OP_PREFIX: nat := 0x5B
  const LNOT_OP: nat := 0x92

  /** One-byte opcodes that open a data object, an argument or a local, and the bytes names are made of. */
  predicate IsPassive(b: nat) {
    IsDataId(b) || IsNameByte(b) || 0x30 <= b <= 0x39
  }

  /** One-byte expression opcodes with fixed arguments only. */
  predicate IsOperator(b: nat) {
    0x70 <= b <= 0x85 || b == 0x87 || b == 0x88 || b == 0x89 || b == 0x8E || 0x90 <= b <= 0x99 || 0x9C <= b <= 0x9E
  }

  function OperatorArgs(b: nat): seq<ArgType>
    requires IsOperator(b)
  {
    if b == 0x70 then [TermArgArg, SuperNameArg]
    else if b == 0x71 || b == 0x75 || b == 0x76 || b == 0x87 || b == 0x8E then [SuperNameArg]
    else if b == 0x78 then [TermArgArg, TermArgArg, TargetArg, TargetArg]
    else if 0x80 <= b <= 0x82 || 0x96 <= b <= 0x99 then [TermArgArg, TargetArg]
    else if b == 0x83 || b == 0x92 then [TermArgArg]
    else if b == 0x89 then [TermArgArg, ByteDataArg, TermArgArg, ByteDataArg, TermArgArg, TermArgArg]
    else if 0x90 <= b <= 0x91 || 0x93 <= b <= 0x95 then [TermArgArg, TermArgArg]
    else if b == 0x9D then [TermArgArg, SimpleNameArg]
    else if b == 0x9E then [TermArgArg, TermArgArg, TermArgArg, TargetArg]
    else [TermArgArg, TermArgArg, TargetArg]
  }

  function OneByteInfo(b: nat): OpInfo {
    if IsOperator(b) then OpInfo(true, OperatorArgs(b), false)
    else if b == BUFFER_OP || b == VAR_PACKAGE_OP then OpInfo(true, [TermArgArg], true)
    else if b == PACKAGE_OP then OpInfo(true, [ByteDataArg], true)
    else OpInfo(false, OtherArgs(b), b == 0x10 || b == 0x14 || 0xA0 <= b <= 0xA2)
  }

  /** The argument lists of constants, names and statements. */
  function OtherArgs(b: nat): seq<ArgType> {
    if b == 0x06 then [NameStringArg, NameStringArg]
    else if b == 0x08 then [NameStringArg, DataRefObjectArg]
    else if b == BYTE_PREFIX || b == EXT_OP_PREFIX then [ByteDataArg]
    else if b == WORD_PREFIX then [WordDataArg]
    else if b == DWORD_PREFIX then [DWordDataArg]
    else if b == STRING_PREFIX then [AsciiCharListArg, NullCharArg]
    else if b == QWORD_PREFIX then [QWordDataArg]
    else if b == 0x10 then [NameStringArg]
    else if b == 0x14 then [NameStringArg, ByteDataArg]
    else if b == 0x15 then [NameStringArg, ByteDataArg, ByteDataArg]
    else if b == DUAL_NAME_PREFIX then [NameSegArg, NameSegArg]
    else if b == MULTI_NAME_PREFIX then [ByteDataArg, NameSegNArg]
    else if b == 0x86 then [SuperNameArg, TermArgArg]
    else if 0x8A <= b <= 0x8D || b == 0x8F then [TermArgArg, TermArgArg, NameStringArg]
    else if b == 0xA0 || b == 0xA2 || b == 0xA4 then [TermArgArg]
    else []
  }

  /** One-byte opcodes that are statements. */
  predicate IsStatement(b: nat) {
    b == 0x06 || b == 0x08 || b == 0x10 || b == 0x14 || b == 0x15 || b == 0x86 || 0x8A <= b <= 0x8D || b == 0x8F ||
    0x9F <= b <= 0xA5 || b == 0xCC
  }

  /** The two-byte expression opcodes behind 0x5B. */
  predicate IsExtendedOperator(b: nat) {
    b == 0x12 || b == 0x1F || b == 0x20 || b == 0x23 || b == 0x25 || b == 0x28 || b == 0x29 || b == 0x33
  }

  function ExtendedArgs(b: nat): seq<ArgType>
    requires IsExtendedOperator(b)
  {
    if b == 0x12 then [SuperNameNoInvocationArg, TargetArg]
    else if b == 0x1F then [TermArgArg, TermArgArg, TermArgArg, TermArgArg, TermArgArg, TermArgArg]
    else if b == 0x20 then [NameStringArg, SuperNameArg]
    else if b == 0x23 then [SuperNameArg, WordDataArg]
    else if b == 0x25 then [SuperNameArg, TermArgArg]
    else if b == 0x33 then []
    else [TermArgArg, TargetArg]
  }

  /** Revision, Debug, and the two-byte statements. */
  predicate IsExtendedOther(b: nat) {
    b == 0x01 || b == 0x02 || b == 0x13 || b == 0x21 || b == 0x22 || b == 0x24 || b == 0x26 || b == 0x27 ||
    0x30 <= b <= 0x32 || 0x80 <= b <= 0x88
  }

  function ExtendedOtherArgs(b: nat): seq<ArgType> {
    if b == 0x01 || b == 0x81 then [NameStringArg, ByteDataArg]
    else if b == 0x02 || b == 0x82 || b == 0x85 then [NameStringArg]
    else if b == 0x13 then [TermArgArg, TermArgArg, TermArgArg, NameStringArg]
    else if b == 0x21 || b == 0x22 then [TermArgArg]
    else if b == 0x24 || b == 0x26 || b == 0x27 then [SuperNameArg]
    else if b == 0x32 then [ByteDataArg, DWordDataArg, TermArgArg]
    else if b == 0x80 then [NameStringArg, ByteDataArg, TermArgArg, TermArgArg]
    else if b == 0x83 then [NameStringArg, ByteDataArg, DWordDataArg, ByteDataArg]
    else if b == 0x84 then [NameStringArg, ByteDataArg, WordDataArg]
    else if b == 0x86 then [NameStringArg, NameStringArg, ByteDataArg]
    else if b == 0x87 then [NameStringArg, NameStringArg, TermArgArg, ByteDataArg]
    else if b == 0x88 then [NameStringArg, TermArgArg, TermArgArg, TermArgArg]
    else []
  }

  function Extended(): map<nat, OpInfo> {
    map b: nat | b < 256 && (IsExtendedOperator(b) || IsExtendedOther(b)) ::
      if IsExtendedOperator(b) then OpInfo(true, ExtendedArgs(b), false)
      else OpInfo(false, ExtendedOtherArgs(b), 0x81 <= b <= 0x87)
  }

  /** LNotEqual, LLessEqual and LGreaterEqual: LNot followed by a comparison. */
  function Negated(): map<nat, OpInfo> {
    var comparison := OpInfo(true, [TermArgArg, TermArgArg], false);
    map[0x93 := comparison, 0x94 := comparison, 0x95 := comparison]
  }

  function SourceTable(): Table {
    map b: nat | b < 256 && (IsPassive(b) || IsOperator(b) || IsStatement(b) || b == EXT_OP_PREFIX) ::
      L1Entry(OneByteInfo(b),
              if b == EXT_OP_PREFIX then Some(SubTable(false, Extended()))
              else if b == LNOT_OP then Some(SubTable(true, Negated()))
              else None)
  }

  /** The source's table is one the skip theorem applies to. */
  lemma SourceTableOk(c: Context)
    requires c.table == SourceTable()
    ensures TableOk(c)
  {
  }

  /** Every operator but LNot is read as itself whatever follows it. */
  lemma OperatorsFit(c: Context, b: byte, next: Bytes)
    requires c.table == SourceTable() && IsOperator(b)
    ensures OpcodeFits(c, [b], next) <==> (b == LNOT_OP ==> next != [] && !(0x93 <= next[0] <= 0x95))
    ensures CodeInfo(c, [b]).args == OperatorArgs(b)
  {
  }

  /** Every operator behind 0x5B is read as itself whatever follows it, and nothing else there is one. */
  lemma ExtendedFit(c: Context, b: byte, next: Bytes)
    requires c.table == SourceTable()
    ensures OpcodeFits(c, [EXT_OP_PREFIX, b], next) <==> IsExtendedOperator(b)
    ensures IsExtendedOperator(b) ==> CodeInfo(c, [EXT_OP_PREFIX, b]).args == ExtendedArgs(b)
  {
    assert IsExtendedOperator(b) ==> b in Extended();
  }

  /** LNotEqual, LLessEqual and LGreaterEqual are read as one operator with two arguments. */
  lemma NegatedFit(c: Context, b: byte, next: Bytes)
    requires c.table == SourceTable()
    ensures OpcodeFits(c, [LNOT_OP, b], next) <==> 0x93 <= b <= 0x95
    ensures 0x93 <= b <= 0x95 ==> CodeInfo(c, [LNOT_OP, b]).args == [TermArgArg, TermArgArg]
  {
  }

  /** These are all: any other opcode is refused where an operator is expected. */
  lemma OperatorsExactly(c: Context, code: Bytes, next: Bytes)
    requires c.table == SourceTable() && OpcodeFits(c, code, next)
    ensures (|code| == 1 && IsOperator(code[0])) ||
            (|code| == 2 && code[0] == EXT_OP_PREFIX && IsExtendedOperator(code[1])) ||
            (|code| == 2 && code[0] == LNOT_OP && 0x93 <= code[1] <= 0x95)
  {
  }

  /** The arguments of the operators of one byte. */
  lemma OperatorShapes()
    ensures forall b ::
              b in {0x72, 0x73, 0x74, 0x77, 0x79, 0x7A, 0x7B, 0x7C, 0x7D, 0x7E, 0x7F, 0x84, 0x85, 0x88, 0x9C} ==>
              IsOperator(b) && OperatorArgs(b) == [TermArgArg, TermArgArg, TargetArg]
    ensures forall b :: b in {0x80, 0x81, 0x82, 0x96, 0x97, 0x98, 0x99} ==>
              IsOperator(b) && OperatorArgs(b) == [TermArgArg, TargetArg]
    ensures forall b :: b in {0x90, 0x91, 0x93, 0x94, 0x95} ==>
              IsOperator(b) && OperatorArgs(b) == [TermArgArg, TermArgArg]
    ensures forall b :: b in {0x71, 0x75, 0x76, 0x87, 0x8E} ==> IsOperator(b) && OperatorArgs(b) == [SuperNameArg]
    ensures forall b :: b in {0x83, 0x92} ==> IsOperator(b) && OperatorArgs(b) == [TermArgArg]
    ensures IsOperator(0x70) && OperatorArgs(0x70) == [TermArgArg, SuperNameArg]
    ensures IsOperator(0x78) && OperatorArgs(0x78) == [TermArgArg, TermArgArg, TargetArg, TargetArg]
    ensures IsOperator(0x89) &&
            OperatorArgs(0x89) == [TermArgArg, ByteDataArg, TermArgArg, ByteDataArg, TermArgArg, TermArgArg]
    ensures IsOperator(0x9D) && OperatorArgs(0x9D) == [TermArgArg, SimpleNameArg]
    ensures IsOperator(0x9E) && OperatorArgs(0x9E) == [TermArgArg, TermArgArg, TermArgArg, TargetArg]
  {
  }

  /** There are no other operators of one byte. */
  lemma OperatorsListed(b: nat)
    requires IsOperator(b)
    ensures b in {0x70, 0x71, 0x72, 0x73, 0x74, 0x75, 0x76, 0x77, 0x78, 0x79, 0x7A, 0x7B, 0x7C, 0x7D, 0x7E, 0x7F} ||
            b in {0x80, 0x81, 0x82, 0x83, 0x84, 0x85, 0x87, 0x88, 0x89, 0x8E, 0x90, 0x91, 0x92, 0x93, 0x94, 0x95} ||
            b in {0x96, 0x97, 0x98, 0x99, 0x9C, 0x9D, 0x9E}
  {
  }

  /** The arguments of the operators behind 0x5B. */
  lemma ExtendedShapes()
    ensures IsExtendedOperator(0x12) && ExtendedArgs(0x12) == [SuperNameNoInvocationArg, TargetArg]
    ensures IsExtendedOperator(0x1F) &&
            ExtendedArgs(0x1F) == [TermArgArg, TermArgArg, TermArgArg, TermArgArg, TermArgArg, TermArgArg]
    ensures IsExtendedOperator(0x20) && ExtendedArgs(0x20) == [NameStringArg, SuperNameArg]
    ensures IsExtendedOperator(0x23) && ExtendedArgs(0x23) == [SuperNameArg, WordDataArg]
    ensures IsExtendedOperator(0x25) && ExtendedArgs(0x25) == [SuperNameArg, TermArgArg]
    ensures IsExtendedOperator(0x28) && ExtendedArgs(0x28) == [TermArgArg, TargetArg]
    ensures IsExtendedOperator(0x29) && ExtendedArgs(0x29) == [TermArgArg, TargetArg]
    ensures IsExtendedOperator(0x33) && ExtendedArgs(0x33) == []
    ensures forall b :: IsExtendedOperator(b) ==> b in {0x12, 0x1F, 0x20, 0x23, 0x25, 0x28, 0x29, 0x33}
  {
  }
}
