/**
 What an access to a field unit does, through any nesting of bank and index fields: to
 memory, as a relation between images of it, and to the hardware global lock.
 */
module FieldEffects {
  import opened Bits
  import opened FieldBits
  import opened RegionField
  import opened Folding
  import RegionFieldTheorems
  import BufferField
  import Region
  import Locks

  /** A bank or index field refers to field units defined before it, which is what makes the recursion end. */
  datatype FieldUnit =
    | BufferUnit(buffer: BufferField.BufferField)
    | RegionUnit(field: Field, lock: bool)
    | BankUnit(base: Field, lock: bool, bank: FieldUnit, bankValue: nat)
    | IndexUnit(offset: nat, lock: bool, index: FieldUnit, data: FieldUnit)
    | NotAField

  /** The contents of some arrays, in the order of a list of them. */
  type Image = seq<Bytes>

  type Arrays = seq<array<byte>>

  ghost function FieldMemory(f: Field): set<array<byte>> {
    if f.region == null then {} else {f.region.ram}
  }

  /** The byte arrays an access may write. */
  ghost function Memory(u: FieldUnit): set<array<byte>> {
    match u
    case BufferUnit(b) => if b.buffer == null then {} else {b.buffer}
    case RegionUnit(f, _) => FieldMemory(f)
    case BankUnit(f, _, bank, _) => FieldMemory(f) + Memory(bank)
    case IndexUnit(_, _, index, data) => Memory(index) + Memory(data)
    case NotAField => {}
  }

  ghost function Snap(all: Arrays): Image
    reads all
  {
    seq(|all|, i requires 0 <= i < |all| reads all => all[i][..])
  }

  // ------------------------------------------------------------- memory

  /** The field has been written, with the access width it declares. */
  ghost predicate Stored(f: Field, pre: Bytes, post: Bytes, input: Bytes, allowTruncation: bool) {
    WidthOf(f.access) != 0 && (f.length == 0 || f.offset + f.length <= 8 * |post|) &&
    forall key :: Open(STORED, key) ==> Written(pre, post, f, WidthOf(f.access), input, allowTruncation)
  }

  ghost predicate FieldStored(all: Arrays, f: Field, pre: Image, post: Image, input: Bytes, allowTruncation: bool) {
    f.region != null && f.region.ram in all && |pre| == |post| == |all| &&
    forall i: nat | i < |all| ::
      if all[i] == f.region.ram then Stored(f, pre[i], post[i], input, allowTruncation) else post[i] == pre[i]
  }

  ghost predicate BufferStored(all: Arrays, b: BufferField.BufferField, pre: Image, post: Image, input: Bytes) {
    b.buffer != null && b.buffer in all && |pre| == |post| == |all| &&
    forall i: nat | i < |all| ::
      if all[i] == b.buffer then
        b.bitIndex + b.bitCount <= 8 * |post[i]| && Holds(post[i], b.bitIndex, b.bitCount, input) &&
        OthersKept(pre[i], post[i], b.bitIndex, b.bitCount)
      else post[i] == pre[i]
  }

  /**
   A write: a bank or index register is written first, itself as a field unit that may be
   nested, and then the field.  They may lie in the same memory.
   */
  ghost predicate WriteEffect(all: Arrays, u: FieldUnit, pre: Image, post: Image, input: Bytes, allowTruncation: bool) {
    match u
    case BufferUnit(b) => BufferStored(all, b, pre, post, input)
    case RegionUnit(f, _) => FieldStored(all, f, pre, post, input, allowTruncation)
    case BankUnit(f, _, bank, v) =>
      exists mid: Image :: WriteEffect(all, bank, pre, mid, ToLE(v, 8), false) &&
        FieldStored(all, f, mid, post, input, allowTruncation)
    case IndexUnit(offset, _, index, data) =>
      exists mid: Image ::
        WriteEffect(all, index, pre, mid, ToLE(offset / 8, 8), false) &&
          WriteEffect(all, data, mid, post, input, allowTruncation)
    case NotAField => false
  }

  /** What a read does to memory: it selects. */
  ghost predicate ReadEffect(all: Arrays, u: FieldUnit, pre: Image, post: Image) {
    match u
    case BankUnit(_, _, bank, v) => WriteEffect(all, bank, pre, post, ToLE(v, 8), false)
    case IndexUnit(offset, _, index, data) =>
      exists mid: Image :: WriteEffect(all, index, pre, mid, ToLE(offset / 8, 8), false) &&
        ReadEffect(all, data, mid, post)
    case _ => post == pre
  }

  /** Where the bits of a field are in the end. */
  datatype Place = Place(memory: array?<byte>, start: nat, length: nat)

  ghost function Target(u: FieldUnit): Place {
    match u
    case BufferUnit(b) => Place(b.buffer, b.bitIndex, b.bitCount)
    case RegionUnit(f, _) => Place(if f.region == null then null else f.region.ram, f.offset, f.length)
    case BankUnit(f, _, _, _) => Place(if f.region == null then null else f.region.ram, f.offset, f.length)
    case IndexUnit(_, _, _, data) => Target(data)
    case NotAField => Place(null, 0, 0)
  }

  /** The result is the first n bits of the place, zero-extended. */
  ghost predicate Delivered(all: Arrays, p: Place, image: Image, n: nat, result: Bytes) {
    n <= p.length && p.memory != null && p.memory in all && |image| == |all| &&
    (n == 0 ==> forall k: nat | k < |result| :: result[k] == 0) &&
    forall i: nat | i < |all| && all[i] == p.memory && n > 0 ::
      p.start + n <= 8 * |image[i]| && Fetched(image[i], p.start, n, result)
  }

  /** The memory an access writes in order to select. */
  ghost function Selectors(u: FieldUnit): set<array<byte>> {
    match u
    case BankUnit(_, _, bank, _) => Memory(bank)
    case IndexUnit(_, _, index, data) => Memory(index) + Selectors(data)
    case _ => {}
  }

  /** The selecting registers are not in the same memory as the field's bits. */
  ghost predicate Separate(u: FieldUnit) {
    Target(u).memory == null || Target(u).memory !in Selectors(u)
  }

  ghost predicate SameBut(all: Arrays, pre: Image, post: Image, changed: set<array<byte>>) {
    |pre| == |post| == |all| && forall i: nat | i < |all| && all[i] !in changed :: post[i] == pre[i]
  }

  lemma {:induction false} WriteTouches(all: Arrays, u: FieldUnit, pre: Image, post: Image, input: Bytes,
                                        allowTruncation: bool)
    requires WriteEffect(all, u, pre, post, input, allowTruncation)
    ensures SameBut(all, pre, post, Memory(u))
  {
    match u
    case BankUnit(f, _, bank, v) =>
      var mid: Image :|
        WriteEffect(all, bank, pre, mid, ToLE(v, 8), false) && FieldStored(all, f, mid, post, input, allowTruncation);
      WriteTouches(all, bank, pre, mid, ToLE(v, 8), false);
    case IndexUnit(offset, _, index, data) =>
      var mid: Image :|
        WriteEffect(all, index, pre, mid, ToLE(offset / 8, 8), false) &&
          WriteEffect(all, data, mid, post, input, allowTruncation);
      WriteTouches(all, index, pre, mid, ToLE(offset / 8, 8), false);
      WriteTouches(all, data, mid, post, input, allowTruncation);
    case _ =>
  }

  lemma {:induction false} ReadTouches(all: Arrays, u: FieldUnit, pre: Image, post: Image)
    requires |pre| == |all| && ReadEffect(all, u, pre, post)
    ensures SameBut(all, pre, post, Selectors(u))
  {
    match u
    case BankUnit(f, _, bank, v) => WriteTouches(all, bank, pre, post, ToLE(v, 8), false);
    case IndexUnit(offset, _, index, data) =>
      var mid: Image :| WriteEffect(all, index, pre, mid, ToLE(offset / 8, 8), false) &&
        ReadEffect(all, data, mid, post);
      WriteTouches(all, index, pre, mid, ToLE(offset / 8, 8), false);
      ReadTouches(all, data, mid, post);
    case _ =>
  }

  ghost predicate PlaceHolds(all: Arrays, p: Place, image: Image, input: Bytes) {
    p.memory != null && p.memory in all && |image| == |all| &&
    forall i: nat | i < |all| && all[i] == p.memory && p.length > 0 ::
      p.start + p.length <= 8 * |image[i]| && Holds(image[i], p.start, p.length, input)
  }

  lemma StoredHolds(f: Field, pre: Bytes, post: Bytes, input: Bytes, allowTruncation: bool)
    requires f.length > 0 && Stored(f, pre, post, input, allowTruncation)
    ensures Holds(post, f.offset, f.length, input)
  {
    assert Open(STORED, 0);
    RegionFieldTheorems.WrittenHolds(pre, post, f, WidthOf(f.access), input, allowTruncation);
  }

  /** Whatever the nesting, a write leaves the input in the place of the field. */
  lemma {:induction false} WriteReaches(all: Arrays, u: FieldUnit, pre: Image, post: Image, input: Bytes,
                                        allowTruncation: bool)
    requires WriteEffect(all, u, pre, post, input, allowTruncation)
    ensures PlaceHolds(all, Target(u), post, input)
  {
    match u
    case BufferUnit(b) =>
    case RegionUnit(f, _) => FieldReaches(all, f, pre, post, input, allowTruncation);
    case BankUnit(f, _, bank, v) =>
      var mid: Image :|
        WriteEffect(all, bank, pre, mid, ToLE(v, 8), false) && FieldStored(all, f, mid, post, input, allowTruncation);
      FieldReaches(all, f, mid, post, input, allowTruncation);
    case IndexUnit(offset, _, index, data) =>
      var mid: Image :|
        WriteEffect(all, index, pre, mid, ToLE(offset / 8, 8), false) &&
          WriteEffect(all, data, mid, post, input, allowTruncation);
      WriteReaches(all, data, mid, post, input, allowTruncation);
  }

  lemma FieldReaches(all: Arrays, f: Field, pre: Image, post: Image, input: Bytes, allowTruncation: bool)
    requires FieldStored(all, f, pre, post, input, allowTruncation)
    ensures PlaceHolds(all, Place(f.region.ram, f.offset, f.length), post, input)
  {
    forall i: nat | i < |all| && all[i] == f.region.ram && f.length > 0
      ensures f.offset + f.length <= 8 * |post[i]| && Holds(post[i], f.offset, f.length, input)
    {
      StoredHolds(f, pre[i], post[i], input, allowTruncation);
    }
  }

  /** Reading a field never changes its own bits when its registers lie elsewhere. */
  lemma ReadKeepsTarget(all: Arrays, u: FieldUnit, pre: Image, post: Image, input: Bytes)
    requires ReadEffect(all, u, pre, post) && Separate(u) && PlaceHolds(all, Target(u), pre, input)
    ensures PlaceHolds(all, Target(u), post, input)
  {
    ReadTouches(all, u, pre, post);
  }

  /** The integer delivered from a place that holds v is v modulo 2 to the place's length. */
  lemma DeliveredInteger(all: Arrays, p: Place, image: Image, v: nat, n: nat, result: Bytes)
    requires v < Pow2(64) && |result| == 8 && n == (if p.length > 64 then 64 else p.length)
    requires PlaceHolds(all, p, image, ToLE(v, 8)) && Delivered(all, p, image, n, result)
    ensures FromLE(result) == v % Pow2(p.length)
  {
    if n == 0 {
      ZeroValue(result);
    } else {
      var i: nat :| i < |all| && all[i] == p.memory;
      IntegerRoundTrip(image[i], p.start, n, v, result);
      if p.length > 64 {
        FitsLonger(v, p.length);
      }
    }
  }

  /**
   Storing an integer in a field of any kind and loading it again gives it modulo 2 to the
   field's length, if the registers it selects through lie in other memory.
   */
  lemma StoredThenLoaded(all: Arrays, u: FieldUnit, pre: Image, mid: Image, post: Image, v: nat, n: nat, result: Bytes)
    requires v < Pow2(64) && WriteEffect(all, u, pre, mid, ToLE(v, 8), false)
    requires Separate(u) && ReadEffect(all, u, mid, post)
    requires |result| == 8 && n == (if Target(u).length > 64 then 64 else Target(u).length)
    requires Delivered(all, Target(u), post, n, result)
    ensures FromLE(result) == v % Pow2(Target(u).length)
  {
    WriteReaches(all, u, pre, mid, ToLE(v, 8), false);
    ReadKeepsTarget(all, u, mid, post, ToLE(v, 8));
    DeliveredInteger(all, Target(u), post, v, n, result);
  }

  /** value is the place's bits as a 64-bit integer, zero-extended or cut. */
  ghost predicate Loaded(all: Arrays, p: Place, image: Image, value: nat) {
    exists r: Bytes :: |r| == 8 && value == FromLE(r) &&
      Delivered(all, p, image, if p.length > 64 then 64 else p.length, r)
  }

  lemma LoadedBack(all: Arrays, u: FieldUnit, pre: Image, mid: Image, post: Image, v: nat, value: nat)
    requires v < Pow2(64) && WriteEffect(all, u, pre, mid, ToLE(v, 8), false)
    requires Separate(u) && ReadEffect(all, u, mid, post) && Loaded(all, Target(u), post, value)
    ensures value == v % Pow2(Target(u).length)
  {
    var n := if Target(u).length > 64 then 64 else Target(u).length;
    var r: Bytes :| |r| == 8 && value == FromLE(r) && Delivered(all, Target(u), post, n, r);
    StoredThenLoaded(all, u, pre, mid, post, v, n, r);
  }

  lemma FitsLonger(v: nat, length: nat)
    requires v < Pow2(64) && length > 64
    ensures v % Pow2(64) == v % Pow2(length)
  {
    LowIsMod(v, 64);
    LowIsMod(v, length);
    LowIdentity(v, 64);
    Pow2Monotone(64, length);
    LowIdentity(v, length);
  }

  lemma {:induction false} ZeroValue(s: Bytes)
    requires forall k: nat | k < |s| :: s[k] == 0
    ensures FromLE(s) == 0
  {
    if s != [] {
      ZeroValue(s[1..]);
    }
  }

  // -------------------------------------------------------------- success

  /** How often an access that goes through asks the host for the global lock mutex. */
  function LockCount(u: FieldUnit): nat {
    var own := if HasLockRule(u) then 1 else 0;
    match u
    case BankUnit(_, _, bank, _) => own + LockCount(bank)
    case IndexUnit(_, _, index, data) => own + LockCount(index) + LockCount(data)
    case _ => own
  }

  /** The host grants the first n requests; host holds its answers in the order of the requests. */
  predicate Granted(host: seq<Locks.Status>, n: nat)
    requires n <= |host|
  {
    forall i :: 0 <= i < n ==> host[i] == Locks.Success
  }

  /** Regions, each with whether it is ready. */
  type ReadyRegions = map<Region.OperationRegion, bool>

  predicate Up(up: ReadyRegions, r: Region.OperationRegion?) {
    r != null && r in up && up[r]
  }

  ghost function Regions(u: FieldUnit): set<Region.OperationRegion> {
    match u
    case RegionUnit(f, _) => if f.region == null then {} else {f.region}
    case BankUnit(f, _, bank, _) => (if f.region == null then {} else {f.region}) + Regions(bank)
    case IndexUnit(_, _, index, data) => Regions(index) + Regions(data)
    case _ => {}
  }

  /** up says of the regions of the field, and perhaps of others, whether they are ready. */
  ghost predicate ReadyAre(u: FieldUnit, up: ReadyRegions)
    reads up.Keys
  {
    Regions(u) <= up.Keys && forall r | r in up :: r.ready == up[r]
  }

  /** A 64-bit integer can be stored in the field: each register can be written, and then the field. */
  ghost predicate CanStore(u: FieldUnit, up: ReadyRegions) {
    match u
    case BufferUnit(b) => BufferField.Writable(b)
    case RegionUnit(f, _) => WriteGoes(f, Up(up, f.region))
    case BankUnit(f, _, bank, _) => CanStore(bank, up) && WriteGoes(f, Up(up, f.region))
    case IndexUnit(_, _, index, data) => CanStore(index, up) && CanWrite(data, up, 8, false)
    case NotAField => false
  }

  /** inputSize bytes can be written to the field. */
  ghost predicate CanWrite(u: FieldUnit, up: ReadyRegions, inputSize: nat, allowTruncation: bool) {
    match u
    case BufferUnit(b) => BufferField.Writable(b) && (b.bitCount <= 8 * inputSize || allowTruncation)
    case RegionUnit(f, _) => WriteGoes(f, Up(up, f.region))
    case BankUnit(f, _, bank, _) => CanStore(bank, up) && WriteGoes(f, Up(up, f.region))
    case IndexUnit(_, _, index, data) => CanStore(index, up) && CanWrite(data, up, inputSize, allowTruncation)
    case NotAField => false
  }

  /** The field can be read into resultSize bytes. */
  ghost predicate CanRead(u: FieldUnit, up: ReadyRegions, resultSize: nat, allowTruncation: bool) {
    match u
    case BufferUnit(b) => BufferField.Readable(b) && b.bitCount <= 8 * resultSize
    case RegionUnit(f, _) => ReadGoes(f, Up(up, f.region), resultSize, allowTruncation)
    case BankUnit(f, _, bank, _) => CanStore(bank, up) && ReadGoes(f, Up(up, f.region), resultSize, allowTruncation)
    case IndexUnit(_, _, index, data) => CanStore(index, up) && CanRead(data, up, resultSize, allowTruncation)
    case NotAField => false
  }

  // ------------------------------------------------------------ refusals

  /** A refused write leaves the field's memory alone, or has written every whole word the region holds. */
  ghost predicate FieldLeft(all: Arrays, f: Field, ready: bool, pre: Image, post: Image, input: Bytes,
                            allowTruncation: bool)
  {
    |pre| == |post| == |all| &&
    forall i: nat | i < |all| ::
      if f.region != null && all[i] == f.region.ram && StartsIf(f, ready) then
        WrittenBelow(pre[i], post[i], f, WidthOf(f.access), input, allowTruncation,
                     AlignDown(8 * |pre[i]|, WidthOf(f.access)))
      else post[i] == pre[i]
  }

  /** The host refuses the lock rule's own request. */
  predicate LockRefused(u: FieldUnit, host: seq<Locks.Status>)
    requires LockCount(u) <= |host|
  {
    HasLockRule(u) && host[0] != Locks.Success
  }

  /** The host's answers inside the field's own lock rule. */
  function Inner(u: FieldUnit, host: seq<Locks.Status>): seq<Locks.Status>
    requires LockCount(u) <= |host|
  {
    if HasLockRule(u) then host[1..] else host
  }

  /** The register is written: every lock on the way is granted and every write on the way can be done. */
  ghost predicate Selects(register: FieldUnit, up: ReadyRegions, host: seq<Locks.Status>)
    requires LockCount(register) <= |host|
  {
    Granted(host, LockCount(register)) && CanStore(register, up)
  }

  /** What a refused write leaves: the registers before the refusal written, and nothing after it. */
  ghost predicate WriteLeft(all: Arrays, u: FieldUnit, up: ReadyRegions, host: seq<Locks.Status>, pre: Image,
                            post: Image,
                            input: Bytes, allowTruncation: bool)
    requires LockCount(u) <= |host|
  {
    if LockRefused(u, host) then post == pre
    else
      match u
      case RegionUnit(f, _) => FieldLeft(all, f, Up(up, f.region), pre, post, input, allowTruncation)
      case BankUnit(f, _, bank, v) =>
        if Selects(bank, up, Inner(u, host)) then
          exists mid: Image ::
            WriteEffect(all, bank, pre, mid, ToLE(v, 8), false) &&
            FieldLeft(all, f, Up(up, f.region), mid, post, input, allowTruncation)
        else WriteLeft(all, bank, up, Inner(u, host), pre, post, ToLE(v, 8), false)
      case IndexUnit(offset, _, index, data) =>
        if Selects(index, up, Inner(u, host)) then
          exists mid: Image ::
            WriteEffect(all, index, pre, mid, ToLE(offset / 8, 8), false) &&
            WriteLeft(all, data, up, Inner(u, host)[LockCount(index)..], mid, post, input, allowTruncation)
        else WriteLeft(all, index, up, Inner(u, host), pre, post, ToLE(offset / 8, 8), false)
      case _ => post == pre
  }

  /** What a refused read leaves: the same of the registers, and its field's memory as it is then. */
  ghost predicate ReadLeft(all: Arrays, u: FieldUnit, up: ReadyRegions, host: seq<Locks.Status>, pre: Image,
                           post: Image)
    requires LockCount(u) <= |host|
  {
    if LockRefused(u, host) then post == pre
    else
      match u
      case BankUnit(_, _, bank, v) =>
        if Selects(bank, up, Inner(u, host)) then WriteEffect(all, bank, pre, post, ToLE(v, 8), false)
        else WriteLeft(all, bank, up, Inner(u, host), pre, post, ToLE(v, 8), false)
      case IndexUnit(offset, _, index, data) =>
        if Selects(index, up, Inner(u, host)) then
          exists mid: Image ::
            WriteEffect(all, index, pre, mid, ToLE(offset / 8, 8), false) &&
            ReadLeft(all, data, up, Inner(u, host)[LockCount(index)..], mid, post)
        else WriteLeft(all, index, up, Inner(u, host), pre, post, ToLE(offset / 8, 8), false)
      case _ => post == pre
  }

  // ------------------------------------------------- the hardware lock

  predicate HasLockRule(u: FieldUnit) {
    (u.RegionUnit? || u.BankUnit? || u.IndexUnit?) && u.lock
  }

  /**
   The holds of the hardware lock lost in an access that begins with hold holds counted:
   one for each lock rule followed while the global lock is held already.
   */
  function Lost(u: FieldUnit, hold: nat): nat {
    var own, inner := if HasLockRule(u) && hold > 0 then 1 else 0, if HasLockRule(u) then hold + 1 else hold;
    match u
    case BankUnit(_, _, bank, _) => own + Lost(bank, inner)
    case IndexUnit(_, _, index, data) => own + Lost(index, inner) + Lost(data, inner)
    case _ => own
  }

  /** The hardware holds at the moment the field's own bits are accessed. */
  function During(u: FieldUnit, hold: nat, hardware: int): int {
    var inner := if HasLockRule(u) then hold + 1 else hold;
    var taken := if HasLockRule(u) && hold == 0 then hardware + 1 else hardware;
    match u
    case BankUnit(_, _, bank, _) => taken - Lost(bank, inner)
    case IndexUnit(_, _, index, data) => During(data, inner, taken - Lost(index, inner))
    case _ => taken
  }

  /** The field or a register it selects through has the lock rule. */
  predicate TakesLock(u: FieldUnit) {
    HasLockRule(u) ||
    (u.BankUnit? && TakesLock(u.bank)) || (u.IndexUnit? && (TakesLock(u.index) || TakesLock(u.data)))
  }

  /** Some register written on the way to the field's bits has the lock rule, or selects through one that has. */
  predicate SelectsLocked(u: FieldUnit) {
    (u.BankUnit? && TakesLock(u.bank)) || (u.IndexUnit? && (TakesLock(u.index) || SelectsLocked(u.data)))
  }

  lemma {:induction false} LostIff(u: FieldUnit, hold: nat)
    requires hold > 0
    ensures Lost(u, hold) > 0 <==> TakesLock(u)
  {
    var inner := if HasLockRule(u) then hold + 1 else hold;
    match u
    case BankUnit(_, _, bank, _) => LostIff(bank, inner);
    case IndexUnit(_, _, index, data) => LostIff(index, inner); LostIff(data, inner);
    case _ =>
  }

  /** With the global lock already counted, the hardware stays as it is until the bits are accessed, or falls. */
  lemma {:induction false} DuringHeld(u: FieldUnit, hold: nat, hardware: int)
    requires hold > 0
    ensures During(u, hold, hardware) <= hardware
    ensures During(u, hold, hardware) == hardware <==> !SelectsLocked(u)
  {
    var inner := if HasLockRule(u) then hold + 1 else hold;
    match u
    case BankUnit(_, _, bank, _) => LostIff(bank, inner);
    case IndexUnit(_, _, index, data) =>
      LostIff(index, inner);
      DuringHeld(data, inner, hardware - Lost(index, inner));
    case _ =>
  }

  /**
   A field with the lock rule is accessed with the hardware lock held exactly if no register
   written on the way to its bits has the rule too.
   */
  lemma HeldDuringIff(u: FieldUnit, hold: nat)
    requires HasLockRule(u)
    ensures During(u, hold, if hold > 0 then 1 else 0) == 1 <==> !SelectsLocked(u)
  {
    var taken := 1;
    match u
    case RegionUnit(_, _) =>
    case BankUnit(_, _, bank, _) => LostIff(bank, hold + 1);
    case IndexUnit(_, _, index, data) =>
      LostIff(index, hold + 1);
      DuringHeld(data, hold + 1, taken - Lost(index, hold + 1));
  }

  /** Some lock rule is followed while another one is being followed. */
  predicate NestsLock(u: FieldUnit) {
    match u
    case BankUnit(_, lock, bank, _) => if lock then TakesLock(bank) else NestsLock(bank)
    case IndexUnit(_, lock, index, data) =>
      if lock then TakesLock(index) || TakesLock(data) else NestsLock(index) || NestsLock(data)
    case _ => false
  }

  /** An access that begins with the global lock free loses hardware holds exactly if it nests lock rules. */
  lemma {:induction false} LostFromFreeIff(u: FieldUnit)
    ensures Lost(u, 0) > 0 <==> NestsLock(u)
  {
    match u
    case BankUnit(_, lock, bank, _) =>
      if lock { LostIff(bank, 1); } else { LostFromFreeIff(bank); }
    case IndexUnit(_, lock, index, data) =>
      if lock {
        LostIff(index, 1);
        LostIff(data, 1);
      } else {
        LostFromFreeIff(index);
        LostFromFreeIff(data);
      }
    case _ =>
  }
}
