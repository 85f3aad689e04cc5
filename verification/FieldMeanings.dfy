/**
 Bank fields, index fields and the lock rule on registers and fields of whole bytes: when an access
 goes through, and which byte it writes to select.
 */
module FieldMeanings {
  import opened Bits
  import opened FieldBits
  import opened Region
  import opened RegionField
  import opened FieldEffects
  import opened FieldUnit
  import opened AccessTypes
  import opened Folding
  import Locks

  /** A field of byte access that begins with a byte. */
  predicate ByteField(f: Field) {
    (f.access.AnyAcc? || f.access.ByteAcc?) && f.length > 0 && f.offset % 8 == 0
  }

  /** The field's region is there, ready, and has the field's bytes. */
  predicate HasBytes(f: Field, up: ReadyRegions) {
    f.region != null && f.region in up && up[f.region] && (f.offset + f.length + 7) / 8 <= f.region.ram.Length
  }

  lemma BytesGo(f: Field, up: ReadyRegions, size: nat, allowTruncation: bool)
    requires ByteField(f) && f.length <= 8 * size
    ensures WriteGoes(f, Up(up, f.region)) <==> HasBytes(f, up)
    ensures ReadGoes(f, Up(up, f.region), size, allowTruncation) <==> HasBytes(f, up)
  {
    if f.region != null {
      AlignedReach(f, 1, f.region.ram.Length);
    }
  }

  /** A field without lock rule asks the host for nothing; with it, once, and only then can be refused by it. */
  lemma RegionAccess(f: Field, lock: bool, up: ReadyRegions, host: seq<Locks.Status>, size: nat, allowTruncation: bool)
    requires ByteField(f) && f.length <= 8 * size
    ensures LockCount(RegionUnit(f, lock)) == if lock then 1 else 0
    ensures |host| >= 1 ==>
              (ReadAllowed(RegionUnit(f, lock), up, host, size, allowTruncation) <==>
               (lock ==> host[0] == Locks.Success) && HasBytes(f, up))
    ensures |host| >= 1 ==>
              (WriteAllowed(RegionUnit(f, lock), up, host, size, allowTruncation) <==>
               (lock ==> host[0] == Locks.Success) && HasBytes(f, up))
  {
    assert Open(CAN, 0);
    BytesGo(f, up, size, allowTruncation);
  }

  /** A bank field is accessed exactly if both regions have the bytes, and each lock rule is granted. */
  lemma BankAccess(base: Field, lock: bool, register: Field, registerLock: bool, value: nat, up: ReadyRegions,
                   host: seq<Locks.Status>, size: nat, allowTruncation: bool)
    requires ByteField(base) && ByteField(register) && base.length <= 8 * size && |host| >= 2
    ensures var u := BankUnit(base, lock, RegionUnit(register, registerLock), value);
            var granted := (lock || registerLock ==> host[0] == Locks.Success) &&
                           (lock && registerLock ==> host[1] == Locks.Success);
            LockCount(u) <= 2 &&
            (ReadAllowed(u, up, host, size, allowTruncation) <==>
             granted && HasBytes(base, up) && HasBytes(register, up)) &&
            (WriteAllowed(u, up, host, size, allowTruncation) <==>
             granted && HasBytes(base, up) && HasBytes(register, up))
  {
    assert Open(CAN, 0);
    BytesGo(base, up, size, allowTruncation);
    BytesGo(register, up, register.length, allowTruncation);
  }

  /** An index field is accessed exactly if both registers' regions have the bytes. */
  lemma IndexAccess(offset: nat, index: Field, data: Field, up: ReadyRegions, host: seq<Locks.Status>, size: nat,
                    allowTruncation: bool)
    requires ByteField(index) && ByteField(data) && data.length <= 8 * size
    ensures var u := IndexUnit(offset, false, RegionUnit(index, false), RegionUnit(data, false));
            LockCount(u) == 0 &&
            (ReadAllowed(u, up, host, size, allowTruncation) <==> HasBytes(index, up) && HasBytes(data, up)) &&
            (WriteAllowed(u, up, host, size, allowTruncation) <==> HasBytes(index, up) && HasBytes(data, up))
  {
    assert Open(CAN, 0);
    BytesGo(data, up, size, allowTruncation);
    BytesGo(index, up, index.length, allowTruncation);
    assert CanStore(RegionUnit(index, false), up) <==> HasBytes(index, up);
    assert CanRead(RegionUnit(data, false), up, size, allowTruncation) <==> HasBytes(data, up);
    assert CanWrite(RegionUnit(data, false), up, size, allowTruncation) <==> HasBytes(data, up);
  }

  // ------------------------------------------------------------- selection

  /** One byte of the memory has become the value, and no other has changed. */
  predicate ByteBecame(pre: Bytes, post: Bytes, k: nat, value: nat) {
    |post| == |pre| && k < |pre| && post[k] == value && forall j: nat | j < |pre| && j != k :: post[j] == pre[j]
  }

  /** An 8-bit register of byte access gets the low byte of what is stored in it. */
  lemma RegisterGets(register: Field, pre: Bytes, post: Bytes, value: nat)
    requires ByteField(register) && register.length == 8 && Stored(register, pre, post, ToLE(value, 8), false)
    ensures ByteBecame(pre, post, register.offset / 8, value % 256)
  {
    var k := register.offset / 8;
    ByteWrites(register, pre, post, ToLE(value, 8), false);
    assert (register.offset + register.length + 7) / 8 == k + 1 && 8 * k == register.offset;
    HeldByte(post, k, value);
  }

  lemma HeldByte(post: Bytes, k: nat, value: nat)
    requires k < |post| && Holds(post, 8 * k, 8, ToLE(value, 8))
    ensures post[k] == value % 256
  {
    forall i: nat | i < 8
      ensures Bit(post[k], i) == Bit(value % 256, i)
    {
      BitOfByte(post, k, i);
      FirstByteBit(value, i);
    }
    Pow2Of8();
    BitsDetermineWord(post[k], value % 256, 8);
  }

  lemma FirstByteBit(value: nat, i: nat)
    requires i < 8
    ensures InputBit(ToLE(value, 8), i) == Bit(value % 256, i)
  {
    assert ToLE(value, 8)[0] == value % 256;
  }

  lemma StoredIn(all: Arrays, f: Field, pre: Image, post: Image, input: Bytes, allowTruncation: bool, i: nat)
    requires FieldStored(all, f, pre, post, input, allowTruncation) && i < |all| && all[i] == f.region.ram
    ensures Stored(f, pre[i], post[i], input, allowTruncation)
  {
  }

  lemma StoredElsewhere(all: Arrays, f: Field, pre: Image, post: Image, input: Bytes, allowTruncation: bool, i: nat)
    requires FieldStored(all, f, pre, post, input, allowTruncation) && i < |all| && all[i] != f.region.ram
    ensures post[i] == pre[i]
  {
  }

  /** Writing a bank field puts the bank number into the bank register, unless that lies in the field's own memory. */
  lemma BankSelects(all: Arrays, base: Field, lock: bool, register: Field, registerLock: bool, value: nat, pre: Image,
                    post: Image, input: Bytes, allowTruncation: bool, i: nat)
    requires var u := BankUnit(base, lock, RegionUnit(register, registerLock), value);
             WriteEffect(all, u, pre, post, input, allowTruncation)
    requires ByteField(register) && register.length == 8
    requires i < |all| && register.region != null && all[i] == register.region.ram
    requires base.region != null ==> base.region.ram != all[i]
    ensures |pre| == |post| == |all| && ByteBecame(pre[i], post[i], register.offset / 8, value % 256)
  {
    var mid: Image :| FieldStored(all, register, pre, mid, ToLE(value, 8), false) &&
                      FieldStored(all, base, mid, post, input, allowTruncation);
    StoredIn(all, register, pre, mid, ToLE(value, 8), false, i);
    RegisterGets(register, pre[i], mid[i], value);
    StoredElsewhere(all, base, mid, post, input, allowTruncation, i);
  }

  /** Reading one does the same and nothing else. */
  lemma BankReadSelects(all: Arrays, base: Field, lock: bool, register: Field, registerLock: bool, value: nat,
                        pre: Image, post: Image, i: nat)
    requires ReadEffect(all, BankUnit(base, lock, RegionUnit(register, registerLock), value), pre, post)
    requires ByteField(register) && register.length == 8 && register.region != null && i < |all|
    ensures |pre| == |post| == |all|
    ensures if all[i] == register.region.ram then ByteBecame(pre[i], post[i], register.offset / 8, value % 256)
            else post[i] == pre[i]
  {
    assert FieldStored(all, register, pre, post, ToLE(value, 8), false);
    if all[i] == register.region.ram {
      RegisterGets(register, pre[i], post[i], value);
    }
  }

  /** An index field puts the number of its byte into the index register, bits being eight to the byte. */
  lemma IndexReadSelects(all: Arrays, offset: nat, lock: bool, index: Field, indexLock: bool, data: Field,
                         dataLock: bool, pre: Image, post: Image, i: nat)
    requires ReadEffect(all, IndexUnit(offset, lock, RegionUnit(index, indexLock), RegionUnit(data, dataLock)), pre,
                        post)
    requires ByteField(index) && index.length == 8 && index.region != null && i < |all|
    ensures |pre| == |post| == |all|
    ensures if all[i] == index.region.ram then ByteBecame(pre[i], post[i], index.offset / 8, offset / 8 % 256)
            else post[i] == pre[i]
  {
    assert FieldStored(all, index, pre, post, ToLE(offset / 8, 8), false);
    if all[i] == index.region.ram {
      RegisterGets(index, pre[i], post[i], offset / 8);
    }
  }

  lemma IndexSelects(all: Arrays, offset: nat, lock: bool, index: Field, indexLock: bool, data: Field, dataLock: bool,
                     pre: Image, post: Image, input: Bytes, allowTruncation: bool, i: nat)
    requires var u := IndexUnit(offset, lock, RegionUnit(index, indexLock), RegionUnit(data, dataLock));
             WriteEffect(all, u, pre, post, input, allowTruncation)
    requires ByteField(index) && index.length == 8
    requires i < |all| && index.region != null && all[i] == index.region.ram
    requires data.region != null ==> data.region.ram != all[i]
    ensures |pre| == |post| == |all| && ByteBecame(pre[i], post[i], index.offset / 8, offset / 8 % 256)
  {
    var mid: Image :| FieldStored(all, index, pre, mid, ToLE(offset / 8, 8), false) &&
                      FieldStored(all, data, mid, post, input, allowTruncation);
    StoredIn(all, index, pre, mid, ToLE(offset / 8, 8), false, i);
    RegisterGets(index, pre[i], mid[i], offset / 8);
    StoredElsewhere(all, data, mid, post, input, allowTruncation, i);
  }
}
