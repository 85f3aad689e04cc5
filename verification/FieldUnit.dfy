/**
 Field units (AmlFieldUnitRead and AmlFieldUnitWrite of src/aml_field.c and
 AmlConvIntegerToFieldUnit of src/aml_conv.c): buffer fields, region fields, bank
 fields and index fields, with the lock rule taken around each access.
 */
module FieldUnit {
  import opened Bits
  import opened FieldBits
  import opened Region
  import opened RegionField
  import opened Folding
  import opened FieldEffects
  import BufferField
  import Locks
  import LockState

  /** No BufferAcc fields, and values that fit the 64-bit integers they are. */
  ghost predicate InDomain(u: FieldUnit) {
    match u
    case BufferUnit(_) => true
    case RegionUnit(f, _) => !f.access.BufferAcc?
    case BankUnit(f, _, bank, v) => !f.access.BufferAcc? && v < Pow2(64) && InDomain(bank)
    case IndexUnit(offset, _, index, data) => offset < Pow2(64) && InDomain(index) && InDomain(data)
    case NotAField => true
  }

  /** The read that reaches a buffer field is in that field's domain. */
  ghost predicate ReadDomain(u: FieldUnit, resultSize: nat, allowTruncation: bool) {
    match u
    case BufferUnit(b) => !BufferField.Overruns(b, resultSize, allowTruncation)
    case IndexUnit(_, _, _, data) => ReadDomain(data, resultSize, allowTruncation)
    case _ => true
  }

  // -------------------------------------------------- lock neutrality

  /** The lock state keeps its invariant and a method scope exists. */
  ghost predicate Sound(s: Locks.Locks) {
    forall key :: Open(SOUND, key) ==> Locks.Inv(s) && s.scopes != []
  }

  /**
   What an access may change of the lock state: it leaves every hold, every count
   along a chain and the hold count of the global lock as they were.  The
   hardware lock is never left more held than before.
   */
  ghost predicate Neutral(s: Locks.Locks, t: Locks.Locks) {
    Sound(s) && Sound(t) && t.glHold == s.glHold && t.hardware <= s.hardware &&
    forall key :: Open(NEUTRAL, key) ==> NeutralOpen(s, t)
  }

  ghost predicate NeutralOpen(s: Locks.Locks, t: Locks.Locks) {
    Frame(s, t) && t.holds == s.holds &&
    Locks.Sum(t.chains[t.gl]) == Locks.Sum(s.chains[s.gl]) &&
    (Locks.HasLevel(s, s.gl) ==> t.chains[t.gl] == s.chains[s.gl])
  }

  /** Everything but the global lock's own counters. */
  ghost predicate Frame(s: Locks.Locks, t: Locks.Locks) {
    Locks.WellSized(s) && Locks.WellSized(t) && |t.scopes| == |s.scopes| && |t.chains| == |s.chains| && t.gl == s.gl &&
    t.levelStart == s.levelStart && t.lost == s.lost && t.glLost == s.glLost &&
    forall m: nat | m < |s.chains| && m != s.gl :: t.chains[m] == s.chains[m]
  }

  /** Between the acquisition and the release of one access. */
  ghost predicate Locked(s: Locks.Locks, t: Locks.Locks) {
    Sound(s) && Sound(t) && t.glHold == s.glHold + 1 &&
    t.hardware == (if s.glHold == 0 then s.hardware + 1 else s.hardware) &&
    forall key :: Open(LOCKED, key) ==> LockedOpen(s, t)
  }

  ghost predicate LockedOpen(s: Locks.Locks, t: Locks.Locks) {
    Frame(s, t) && t.holds == s.holds[s.gl := s.holds[s.gl] + 1] &&
    Locks.HasLevel(t, t.gl) && t.chains[t.gl][0].count > 0 &&
    Locks.Sum(t.chains[t.gl]) == Locks.Sum(s.chains[s.gl]) + 1 &&
    (Locks.HasLevel(s, s.gl) ==>
       t.chains[t.gl] == [s.chains[s.gl][0].(count := s.chains[s.gl][0].count + 1)] + s.chains[s.gl][1..])
  }

  lemma NeutralRefl(s: Locks.Locks)
    requires Sound(s)
    ensures Neutral(s, s)
  {
    assert Open(SOUND, 0);
  }

  lemma NeutralTransitive(s: Locks.Locks, t: Locks.Locks, u: Locks.Locks)
    requires Neutral(s, t) && Neutral(t, u)
    ensures Neutral(s, u)
  {
  }

  /** An access that began as Locked and has been through a neutral part. */
  ghost predicate StillLocked(s: Locks.Locks, t: Locks.Locks) {
    Sound(s) && Sound(t) && t.glHold == s.glHold + 1 &&
    t.hardware <= (if s.glHold == 0 then s.hardware + 1 else s.hardware) &&
    forall key :: Open(LOCKED, key) ==> LockedOpen(s, t)
  }

  lemma LockedNeutral(s: Locks.Locks, t: Locks.Locks, u: Locks.Locks)
    requires Locked(s, t) && Neutral(t, u)
    ensures StillLocked(s, u)
  {
    assert Open(NEUTRAL, 0);
  }

  lemma AcquireLocks(s: Locks.Locks, reply: Locks.Reply)
    requires Locks.Inv(s) && s.scopes != [] && Locks.AcquireStep(s, s.gl, reply).1.Success?
    ensures Locked(s, Locks.AcquireStep(s, s.gl, reply).0)
  {
    Locks.AcquireKeepsInv(s, s.gl, reply);
    var locked := Locks.HardwareAcquired(Locks.HostAcquired(s, s.gl), s.gl);
    assert locked.chains == s.chains && locked.scopes == s.scopes;
    Locks.SameStructure(s, locked);
    Locks.TrackKeeps(locked, s.gl);
  }

  lemma ReleaseUnlocks(s: Locks.Locks, t: Locks.Locks)
    requires StillLocked(s, t)
    ensures Locks.WellSized(t) && Neutral(s, Locks.ReleaseStep(t, t.gl))
    ensures Locks.ReleaseStep(t, t.gl).hardware == t.hardware - 1
  {
    assert Open(SOUND, 0) && Open(LOCKED, 0);
    Locks.ReleaseKeepsInv(t, t.gl);
    var u := Locks.ReleaseStep(t, t.gl);
    assert t.chains[t.gl][1..] == u.chains[t.gl][1..];
    if Locks.HasLevel(s, s.gl) {
      assert t.chains[t.gl][1..] == s.chains[s.gl][1..];
      assert u.chains[t.gl] == s.chains[s.gl];
    }
  }

  /** The lock rule's acquisition, with no deadline: it is the host's to grant. */
  method Lock(state: LockState.LockState, hostStatus: Locks.Status) returns (ok: bool)
    requires Ready(state)
    modifies state
    ensures ok <==> hostStatus == Locks.Success
    ensures ok ==> Locked(old(state.Model()), state.Model())
    ensures !ok ==> state.Model() == old(state.Model())
  {
    assert Open(SOUND, 0);
    var failedTries: nat := *;
    ghost var s := state.Model();
    var status := state.MutexAcquire(state.globalLock, LockState.NO_TIMEOUT, hostStatus, failedTries, 0);
    ok := status == Locks.Success;
    if ok {
      AcquireLocks(s, Locks.Reply(hostStatus, true));
    }
  }

  method Unlock(state: LockState.LockState, ghost s: Locks.Locks)
    requires StillLocked(s, state.Model())
    modifies state
    ensures Neutral(s, state.Model()) && state.Model().hardware == old(state.Model().hardware) - 1
  {
    ReleaseUnlocks(s, state.Model());
    state.MutexRelease(state.globalLock);
  }

  ghost predicate Ready(state: LockState.LockState)
    reads state
  {
    Sound(state.Model())
  }

  // ------------------------------------------------------------ access

  /** The listed arrays include those an access may write. */
  ghost predicate Covers(all: Arrays, u: FieldUnit) {
    forall a | a in Memory(u) :: a in all
  }

  /** The input has been written, through whatever registers the field needs. */
  ghost predicate WriteDone(all: Arrays, u: FieldUnit, pre: Image, post: Image, input: Bytes, allowTruncation: bool) {
    forall key :: Open(EFFECT, key) ==> WriteEffect(all, u, pre, post, input, allowTruncation)
  }

  /** The first n bits of the field have been read, through whatever registers the field needs. */
  ghost predicate ReadDone(all: Arrays, u: FieldUnit, pre: Image, post: Image, n: nat, result: Bytes) {
    forall key :: Open(EFFECT, key) ==>
      n == Cut(Target(u).length, |result|) && ReadEffect(all, u, pre, post) &&
        Delivered(all, Target(u), post, n, result)
  }

  /** The first n bits of the place, folded. */
  ghost predicate PlaceRead(all: Arrays, p: Place, image: Image, n: nat, result: Bytes) {
    forall key :: Open(EFFECT, key) ==> n == Cut(p.length, |result|) && Delivered(all, p, image, n, result)
  }

  function Cut(length: nat, size: nat): nat {
    if length > 8 * size then 8 * size else length
  }

  /**
   A successful access: the hardware lock has lost a hold for every nested lock rule, and
   held is what was left of it when the field's own bits were accessed.
   */
  ghost predicate Accessed(u: FieldUnit, s: Locks.Locks, t: Locks.Locks, held: int) {
    forall key :: Open(ACCESS, key) ==>
      t.hardware == s.hardware - Lost(u, s.glHold) && held == During(u, s.glHold, s.hardware)
  }

  /** The part of an access of a bank or index field inside its own lock rule. */
  ghost predicate AccessedInside(u: FieldUnit, s: Locks.Locks, t: Locks.Locks, held: int) {
    (u.BankUnit? || u.IndexUnit?) &&
    forall key :: Open(ACCESS, key) ==>
      if u.BankUnit? then t.hardware == s.hardware - Lost(u.bank, s.glHold) && held == t.hardware
      else
        t.hardware == s.hardware - Lost(u.index, s.glHold) - Lost(u.data, s.glHold) &&
        held == During(u.data, s.glHold, s.hardware - Lost(u.index, s.glHold))
  }

  lemma DirectAccess(u: FieldUnit, s: Locks.Locks)
    requires !HasLockRule(u) && (u.BufferUnit? || u.RegionUnit?)
    ensures Accessed(u, s, s, s.hardware)
  {
  }

  lemma LockedAccess(u: FieldUnit, s: Locks.Locks, inner: Locks.Locks, t: Locks.Locks)
    requires HasLockRule(u) && u.RegionUnit? && Locked(s, inner) && t.hardware == inner.hardware - 1
    ensures Accessed(u, s, t, inner.hardware)
  {
  }

  lemma AccessedPlainly(u: FieldUnit, s: Locks.Locks, t: Locks.Locks, held: int)
    requires !HasLockRule(u) && AccessedInside(u, s, t, held)
    ensures Accessed(u, s, t, held)
  {
  }

  lemma AccessedLocked(u: FieldUnit, s: Locks.Locks, inner: Locks.Locks, after: Locks.Locks, t: Locks.Locks, held: int)
    requires HasLockRule(u) && Locked(s, inner) && AccessedInside(u, inner, after, held)
    requires t.hardware == after.hardware - 1
    ensures Accessed(u, s, t, held)
  {
  }

  lemma BankAccessed(u: FieldUnit, s: Locks.Locks, t: Locks.Locks, held: int)
    requires u.BankUnit? && Accessed(u.bank, s, t, held)
    ensures AccessedInside(u, s, t, t.hardware)
  {
  }

  lemma IndexAccessed(u: FieldUnit, s: Locks.Locks, mid: Locks.Locks, t: Locks.Locks, indexHeld: int, held: int)
    requires u.IndexUnit? && mid.glHold == s.glHold
    requires Accessed(u.index, s, mid, indexHeld) && Accessed(u.data, mid, t, held)
    ensures AccessedInside(u, s, t, held)
  {
  }

  // Each kind of field: its registers, and then its own bits.

  lemma DirectWritten(all: Arrays, u: FieldUnit, pre: Image, post: Image, input: Bytes, allowTruncation: bool)
    requires u.RegionUnit? && FieldStored(all, u.field, pre, post, input, allowTruncation)
    ensures WriteDone(all, u, pre, post, input, allowTruncation)
  {
  }

  lemma BufferWritten(all: Arrays, u: FieldUnit, pre: Image, post: Image, input: Bytes, allowTruncation: bool)
    requires u.BufferUnit? && BufferStored(all, u.buffer, pre, post, input)
    ensures WriteDone(all, u, pre, post, input, allowTruncation)
  {
  }

  lemma BankWritten(all: Arrays, u: FieldUnit, pre: Image, mid: Image, post: Image, input: Bytes, allowTruncation: bool)
    requires u.BankUnit? && WriteDone(all, u.bank, pre, mid, ToLE(u.bankValue, 8), false)
    requires FieldStored(all, u.base, mid, post, input, allowTruncation)
    ensures WriteDone(all, u, pre, post, input, allowTruncation)
  {
  }

  lemma IndexWritten(all: Arrays, u: FieldUnit, pre: Image, mid: Image, post: Image, input: Bytes,
                     allowTruncation: bool)
    requires u.IndexUnit? && WriteDone(all, u.index, pre, mid, ToLE(u.offset / 8, 8), false)
    requires WriteDone(all, u.data, mid, post, input, allowTruncation)
    ensures WriteDone(all, u, pre, post, input, allowTruncation)
  {
  }

  lemma DirectRead(all: Arrays, u: FieldUnit, image: Image, n: nat, result: Bytes)
    requires u.BufferUnit? || u.RegionUnit?
    requires PlaceRead(all, Target(u), image, n, result)
    ensures ReadDone(all, u, image, image, n, result)
  {
  }

  lemma BankRead(all: Arrays, u: FieldUnit, pre: Image, post: Image, n: nat, result: Bytes)
    requires u.BankUnit? && WriteDone(all, u.bank, pre, post, ToLE(u.bankValue, 8), false)
    requires PlaceRead(all, Target(u), post, n, result)
    ensures ReadDone(all, u, pre, post, n, result)
  {
  }

  lemma IndexRead(all: Arrays, u: FieldUnit, pre: Image, mid: Image, post: Image, n: nat, result: Bytes)
    requires u.IndexUnit? && WriteDone(all, u.index, pre, mid, ToLE(u.offset / 8, 8), false)
    requires ReadDone(all, u.data, mid, post, n, result)
    ensures ReadDone(all, u, pre, post, n, result)
  {
  }

  // Whether an access goes through, and what it leaves if not.

  ghost predicate StoreAllowed(u: FieldUnit, up: ReadyRegions, host: seq<Locks.Status>)
    requires LockCount(u) <= |host|
  {
    forall key :: Open(CAN, key) ==> Granted(host, LockCount(u)) && CanStore(u, up)
  }

  ghost predicate WriteAllowed(u: FieldUnit, up: ReadyRegions, host: seq<Locks.Status>, inputSize: nat,
                               allowTruncation: bool)
    requires LockCount(u) <= |host|
  {
    forall key :: Open(CAN, key) ==> Granted(host, LockCount(u)) && CanWrite(u, up, inputSize, allowTruncation)
  }

  ghost predicate ReadAllowed(u: FieldUnit, up: ReadyRegions, host: seq<Locks.Status>, resultSize: nat,
                              allowTruncation: bool)
    requires LockCount(u) <= |host|
  {
    forall key :: Open(CAN, key) ==> Granted(host, LockCount(u)) && CanRead(u, up, resultSize, allowTruncation)
  }

  ghost predicate WriteRefused(all: Arrays, u: FieldUnit, up: ReadyRegions, host: seq<Locks.Status>, pre: Image,
                               post: Image, input: Bytes,
                               allowTruncation: bool)
    requires LockCount(u) <= |host|
  {
    forall key :: Open(CAN, key) ==> WriteLeft(all, u, up, host, pre, post, input, allowTruncation)
  }

  ghost predicate ReadRefused(all: Arrays, u: FieldUnit, up: ReadyRegions, host: seq<Locks.Status>, pre: Image,
                              post: Image)
    requires LockCount(u) <= |host|
  {
    forall key :: Open(CAN, key) ==> ReadLeft(all, u, up, host, pre, post)
  }

  /** With no lock rule anywhere an access is allowed by its regions and lengths alone. */
  lemma AllowedWithoutLocks(u: FieldUnit, up: ReadyRegions, host: seq<Locks.Status>, size: nat, allowTruncation: bool)
    requires LockCount(u) <= |host| && !TakesLock(u)
    ensures StoreAllowed(u, up, host) <==> CanStore(u, up)
    ensures WriteAllowed(u, up, host, size, allowTruncation) <==> CanWrite(u, up, size, allowTruncation)
    ensures ReadAllowed(u, up, host, size, allowTruncation) <==> CanRead(u, up, size, allowTruncation)
  {
    assert Open(CAN, 0);
    NoLocksNoRequests(u);
  }

  lemma {:induction false} NoLocksNoRequests(u: FieldUnit)
    ensures LockCount(u) == 0 <==> !TakesLock(u)
  {
    match u
    case BankUnit(_, _, bank, _) => NoLocksNoRequests(bank);
    case IndexUnit(_, _, index, data) => NoLocksNoRequests(index); NoLocksNoRequests(data);
    case _ =>
  }

  lemma GrantedSplits(host: seq<Locks.Status>, a: nat, b: nat)
    requires a + b <= |host|
    ensures Granted(host, a + b) <==> Granted(host, a) && Granted(host[a..], b)
  {
    assert forall i :: 0 <= i < b ==> host[a..][i] == host[a + i];
    if Granted(host, a) && Granted(host[a..], b) {
      forall i | 0 <= i < a + b ensures host[i] == Locks.Success {
        if i >= a {
          assert host[a..][i - a] == Locks.Success;
        }
      }
    }
    if Granted(host, a + b) {
      forall i | 0 <= i < b ensures host[a..][i] == Locks.Success {
        assert host[a + i] == Locks.Success;
      }
    }
  }

  /** The lock rule's own request comes first. */
  lemma GrantedInside(u: FieldUnit, host: seq<Locks.Status>)
    requires LockCount(u) <= |host|
    ensures LockRefused(u, host) ==> !Granted(host, LockCount(u))
    ensures !LockRefused(u, host) ==>
              (Granted(host, LockCount(u)) <==>
               Granted(Inner(u, host), LockCount(u) - if HasLockRule(u) then 1 else 0))
  {
    if HasLockRule(u) {
      GrantedSplits(host, 1, LockCount(u) - 1);
    }
  }

  lemma NothingAllowed(all: Arrays, u: FieldUnit, up: ReadyRegions, host: seq<Locks.Status>, image: Image,
                       input: Bytes, size: nat,
                       allowTruncation: bool)
    requires LockCount(u) <= |host| && LockRefused(u, host)
    ensures !StoreAllowed(u, up, host) && !WriteAllowed(u, up, host, size, allowTruncation)
    ensures !ReadAllowed(u, up, host, size, allowTruncation)
    ensures WriteRefused(all, u, up, host, image, image, input, allowTruncation)
    ensures ReadRefused(all, u, up, host, image, image)
  {
    assert Open(CAN, 0);
    GrantedInside(u, host);
  }

  lemma FieldAllowed(u: FieldUnit, up: ReadyRegions, host: seq<Locks.Status>, size: nat, allowTruncation: bool)
    requires LockCount(u) <= |host| && u.RegionUnit? && !LockRefused(u, host)
    ensures StoreAllowed(u, up, host) <==> WriteGoes(u.field, Up(up, u.field.region))
    ensures WriteAllowed(u, up, host, size, allowTruncation) <==> WriteGoes(u.field, Up(up, u.field.region))
    ensures ReadAllowed(u, up, host, size, allowTruncation) <==>
            ReadGoes(u.field, Up(up, u.field.region), size, allowTruncation)
  {
    assert Open(CAN, 0);
    GrantedInside(u, host);
  }

  lemma BufferAllowed(u: FieldUnit, up: ReadyRegions, host: seq<Locks.Status>, size: nat, allowTruncation: bool)
    requires u.BufferUnit?
    ensures StoreAllowed(u, up, host) <==> BufferField.Writable(u.buffer)
    ensures WriteAllowed(u, up, host, size, allowTruncation) <==>
            BufferField.Writable(u.buffer) && (u.buffer.bitCount <= 8 * size || allowTruncation)
    ensures ReadAllowed(u, up, host, size, allowTruncation) <==>
            BufferField.Readable(u.buffer) && u.buffer.bitCount <= 8 * size
  {
    assert Open(CAN, 0);
  }

  lemma NothingToAllow(u: FieldUnit, up: ReadyRegions, host: seq<Locks.Status>, size: nat, allowTruncation: bool)
    requires u.NotAField?
    ensures !StoreAllowed(u, up, host) && !WriteAllowed(u, up, host, size, allowTruncation)
    ensures !ReadAllowed(u, up, host, size, allowTruncation)
  {
    assert Open(CAN, 0);
  }

  /** Storing an integer is writing eight bytes, but for a buffer field. */
  lemma StoreIsWrite(u: FieldUnit, up: ReadyRegions, host: seq<Locks.Status>)
    requires LockCount(u) <= |host| && !u.BufferUnit?
    ensures StoreAllowed(u, up, host) <==> WriteAllowed(u, up, host, 8, false)
  {
    assert Open(CAN, 0);
  }

  lemma BankAllowed(u: FieldUnit, up: ReadyRegions, host: seq<Locks.Status>, size: nat, allowTruncation: bool)
    requires LockCount(u) <= |host| && u.BankUnit? && !LockRefused(u, host)
    ensures WriteAllowed(u, up, host, size, allowTruncation) <==>
            StoreAllowed(u.bank, up, Inner(u, host)) && WriteGoes(u.base, Up(up, u.base.region))
    ensures ReadAllowed(u, up, host, size, allowTruncation) <==>
            StoreAllowed(u.bank, up, Inner(u, host)) && ReadGoes(u.base, Up(up, u.base.region), size, allowTruncation)
  {
    assert Open(CAN, 0);
    GrantedInside(u, host);
  }

  lemma IndexAllowed(u: FieldUnit, up: ReadyRegions, host: seq<Locks.Status>, size: nat, allowTruncation: bool)
    requires LockCount(u) <= |host| && u.IndexUnit? && !LockRefused(u, host)
    ensures var inner := Inner(u, host);
            WriteAllowed(u, up, host, size, allowTruncation) <==>
            StoreAllowed(u.index, up, inner) &&
              WriteAllowed(u.data, up, inner[LockCount(u.index)..], size, allowTruncation)
    ensures var inner := Inner(u, host);
            ReadAllowed(u, up, host, size, allowTruncation) <==>
            StoreAllowed(u.index, up, inner) &&
              ReadAllowed(u.data, up, inner[LockCount(u.index)..], size, allowTruncation)
  {
    assert Open(CAN, 0);
    GrantedInside(u, host);
    GrantedSplits(Inner(u, host), LockCount(u.index), LockCount(u.data));
  }

  lemma SelectsIsAllowed(register: FieldUnit, up: ReadyRegions, host: seq<Locks.Status>)
    requires LockCount(register) <= |host|
    ensures Selects(register, up, host) <==> StoreAllowed(register, up, host)
  {
    assert Open(CAN, 0);
  }

  // What a refused access of each kind leaves.

  lemma FieldRefused(all: Arrays, u: FieldUnit, up: ReadyRegions, host: seq<Locks.Status>, pre: Image, post: Image,
                     input: Bytes,
                     allowTruncation: bool)
    requires LockCount(u) <= |host| && u.RegionUnit? && !LockRefused(u, host)
    ensures FieldLeft(all, u.field, Up(up, u.field.region), pre, post, input, allowTruncation) ==>
              WriteRefused(all, u, up, host, pre, post, input, allowTruncation)
    ensures ReadRefused(all, u, up, host, pre, pre)
  {
  }

  lemma NoEffect(all: Arrays, u: FieldUnit, up: ReadyRegions, host: seq<Locks.Status>, image: Image, input: Bytes,
                 allowTruncation: bool)
    requires LockCount(u) <= |host| && (u.BufferUnit? || u.NotAField?)
    ensures WriteRefused(all, u, up, host, image, image, input, allowTruncation)
    ensures ReadRefused(all, u, up, host, image, image)
  {
  }

  /** The register was refused. */
  lemma SelectionRefused(all: Arrays, u: FieldUnit, up: ReadyRegions, host: seq<Locks.Status>, pre: Image, post: Image,
                         input: Bytes,
                         allowTruncation: bool)
    requires LockCount(u) <= |host| && (u.BankUnit? || u.IndexUnit?) && !LockRefused(u, host)
    requires var register := if u.BankUnit? then u.bank else u.index;
             var v := if u.BankUnit? then u.bankValue else u.offset / 8;
             !StoreAllowed(register, up, Inner(u, host)) &&
             WriteRefused(all, register, up, Inner(u, host), pre, post, ToLE(v, 8), false)
    ensures WriteRefused(all, u, up, host, pre, post, input, allowTruncation)
    ensures ReadRefused(all, u, up, host, pre, post)
  {
    SelectsIsAllowed(if u.BankUnit? then u.bank else u.index, up, Inner(u, host));
    assert Open(CAN, 0);
  }

  lemma BaseRefused(all: Arrays, u: FieldUnit, up: ReadyRegions, host: seq<Locks.Status>, pre: Image, mid: Image,
                    post: Image,
                    input: Bytes, allowTruncation: bool)
    requires LockCount(u) <= |host| && u.BankUnit? && !LockRefused(u, host) && StoreAllowed(u.bank, up, Inner(u, host))
    requires WriteDone(all, u.bank, pre, mid, ToLE(u.bankValue, 8), false)
    ensures FieldLeft(all, u.base, Up(up, u.base.region), mid, post, input, allowTruncation) ==>
              WriteRefused(all, u, up, host, pre, post, input, allowTruncation)
    ensures ReadRefused(all, u, up, host, pre, mid)
  {
    SelectsIsAllowed(u.bank, up, Inner(u, host));
    assert Open(EFFECT, 0);
  }

  lemma DataRefused(all: Arrays, u: FieldUnit, up: ReadyRegions, host: seq<Locks.Status>, pre: Image, mid: Image,
                    post: Image,
                    input: Bytes, allowTruncation: bool)
    requires LockCount(u) <= |host| && u.IndexUnit? && !LockRefused(u, host) &&
             StoreAllowed(u.index, up, Inner(u, host))
    requires WriteDone(all, u.index, pre, mid, ToLE(u.offset / 8, 8), false)
    ensures WriteRefused(all, u.data, up, Inner(u, host)[LockCount(u.index)..], mid, post, input, allowTruncation) ==>
              WriteRefused(all, u, up, host, pre, post, input, allowTruncation)
    ensures ReadRefused(all, u.data, up, Inner(u, host)[LockCount(u.index)..], mid, post) ==>
              ReadRefused(all, u, up, host, pre, post)
  {
    SelectsIsAllowed(u.index, up, Inner(u, host));
    assert Open(EFFECT, 0) && Open(CAN, 0);
  }

  /** AmlFieldWrite, its effect in one word. */
  method StoreInField(f: Field, inputData: array<byte>, allowTruncation: bool, ghost ready: bool, ghost all: Arrays)
    returns (ok: bool)
    requires f.region != null ==> f.region.ready == ready
    requires !f.access.BufferAcc? && inputData !in FieldMemory(f)
    requires forall a | a in FieldMemory(f) :: a in all
    modifies FieldMemory(f)
    ensures ok <==> WriteGoes(f, ready)
    ensures ok ==> FieldStored(all, f, old(Snap(all)), Snap(all), inputData[..], allowTruncation)
    ensures !ok ==> FieldLeft(all, f, ready, old(Snap(all)), Snap(all), inputData[..], allowTruncation)
  {
    ok := FieldWrite(f, inputData, allowTruncation);
    if ok && f.length > 0 {
      AlignUpFacts(f.offset + f.length, WidthOf(f.access));
      AlignFacts(f.offset + f.length, WidthOf(f.access));
    }
  }

  /** AmlFieldRead, its result in one word. */
  method LoadFromField(f: Field, resultData: array<byte>, allowTruncation: bool, ghost ready: bool, ghost all: Arrays)
    returns (ok: bool, resultBitCount: nat)
    requires f.region != null ==> f.region.ready == ready
    requires !f.access.BufferAcc? && resultData !in FieldMemory(f) && resultData !in all
    requires forall a | a in FieldMemory(f) :: a in all
    modifies resultData
    ensures ok <==> ReadGoes(f, ready, resultData.Length, allowTruncation)
    ensures ok ==> f.region != null &&
                   PlaceRead(all, Place(f.region.ram, f.offset, f.length), Snap(all), resultBitCount, resultData[..])
    ensures Snap(all) == old(Snap(all))
  {
    ok, resultBitCount := FieldRead(f, resultData, allowTruncation);
  }

  /** AmlBufferFieldWrite, its effect in one word. */
  method StoreInBuffer(b: BufferField.BufferField, inputData: array<byte>, allowTruncation: bool, ghost all: Arrays)
    returns (ok: bool)
    requires b.buffer != null ==> b.buffer != inputData && b.buffer in all
    modifies if b.buffer == null then {} else {b.buffer}
    ensures ok <==> BufferField.Writable(b) && (b.bitCount <= 8 * inputData.Length || allowTruncation)
    ensures ok ==> BufferStored(all, b, old(Snap(all)), Snap(all), inputData[..])
    ensures !ok ==> Snap(all) == old(Snap(all))
  {
    ok := BufferField.Write(b, inputData, allowTruncation);
  }

  /** AmlBufferFieldRead, its result in one word. */
  method LoadFromBuffer(b: BufferField.BufferField, resultData: array<byte>, allowTruncation: bool, ghost all: Arrays)
    returns (ok: bool, resultBitCount: nat)
    requires !BufferField.Overruns(b, resultData.Length, allowTruncation)
    requires resultData !in all && (b.buffer != null ==> b.buffer in all)
    modifies resultData
    ensures ok <==> BufferField.Readable(b) && b.bitCount <= 8 * resultData.Length
    ensures ok ==> PlaceRead(all, Place(b.buffer, b.bitIndex, b.bitCount), Snap(all), resultBitCount, resultData[..])
    ensures Snap(all) == old(Snap(all))
  {
    ok, resultBitCount := BufferField.Read(b, resultData, resultData.Length, allowTruncation);
    assert resultData[..resultData.Length] == resultData[..];
    assert Snap(all) == old(Snap(all));
    if ok && b.bitCount == 0 {
      FetchedNone(b.buffer[..], b.bitIndex, resultData[..]);
    }
  }

  lemma FetchedNone(mem: Bytes, start: nat, result: Bytes)
    requires start <= 8 * |mem| && Fetched(mem, start, 0, result)
    ensures forall k: nat | k < |result| :: result[k] == 0
  {
    var zeros: Bytes := seq(|result|, _ => 0);
    ZeroBits(zeros);
    BitsDetermineBytes(result, zeros);
  }

  /** AmlFieldUnitRead. host holds the host's answers to the requests for the global lock mutex, in their order. */
  method FieldUnitRead(state: LockState.LockState, u: FieldUnit, resultData: array<byte>, allowTruncation: bool,
                       host: seq<Locks.Status>, ghost up: ReadyRegions, ghost all: Arrays)
    returns (ok: bool, resultBitCount: nat, ghost held: int)
    requires Ready(state) && ReadyAre(u, up) && InDomain(u) && ReadDomain(u, resultData.Length, allowTruncation)
    requires Covers(all, u) && resultData !in all && LockCount(u) <= |host|
    modifies state, resultData, Memory(u)
    ensures ok <==> ReadAllowed(u, up, host, resultData.Length, allowTruncation)
    ensures ok ==> ReadDone(all, u, old(Snap(all)), Snap(all), resultBitCount, resultData[..])
    ensures !ok ==> ReadRefused(all, u, up, host, old(Snap(all)), Snap(all))
    ensures ok ==> Accessed(u, old(state.Model()), state.Model(), held)
    ensures Neutral(old(state.Model()), state.Model())
    decreases u, 2
  {
    ghost var s := state.Model();
    ghost var inner := s;
    held := s.hardware;
    NeutralRefl(s);
    match u
    case BufferUnit(b) =>
      ok, resultBitCount := BufferUnitRead(u, resultData, allowTruncation, host, up, all);
      DirectAccess(u, s);
    case RegionUnit(_, _) =>
      ok, resultBitCount, held := RegionUnitRead(state, u, resultData, allowTruncation, host, up, all);
    case BankUnit(f, lock, bank, bankValue) =>
      if lock {
        var locked := Lock(state, host[0]);
        if !locked {
          NothingAllowed(all, u, up, host, Snap(all), [], resultData.Length, allowTruncation);
          return false, 0, held;
        }
      }
      inner := state.Model();
      assert Snap(all) == old(Snap(all));
      ok, resultBitCount, held := BankFieldRead(state, u, resultData, allowTruncation, host, up, all);
      if lock {
        UnlockAccess(state, u, s, inner, ok, held);
      } else if ok {
        AccessedPlainly(u, s, state.Model(), held);
      }
    case IndexUnit(offset, lock, index, data) =>
      if lock {
        var locked := Lock(state, host[0]);
        if !locked {
          NothingAllowed(all, u, up, host, Snap(all), [], resultData.Length, allowTruncation);
          return false, 0, held;
        }
      }
      inner := state.Model();
      assert Snap(all) == old(Snap(all));
      ok, resultBitCount, held := IndexFieldRead(state, u, resultData, allowTruncation, host, up, all);
      if lock {
        UnlockAccess(state, u, s, inner, ok, held);
      } else if ok {
        AccessedPlainly(u, s, state.Model(), held);
      }
    case NotAField =>
      NothingToAllow(u, up, host, resultData.Length, allowTruncation);
      NoEffect(all, u, up, host, Snap(all), [], false);
      return false, 0, held;
  }

  /** The case of a buffer field. */
  method BufferUnitRead(u: FieldUnit, resultData: array<byte>, allowTruncation: bool, host: seq<Locks.Status>,
                        ghost up: ReadyRegions, ghost all: Arrays)
    returns (ok: bool, resultBitCount: nat)
    requires u.BufferUnit? && !BufferField.Overruns(u.buffer, resultData.Length, allowTruncation)
    requires Covers(all, u) && resultData !in all
    modifies resultData
    ensures ok <==> ReadAllowed(u, up, host, resultData.Length, allowTruncation)
    ensures ok ==> ReadDone(all, u, old(Snap(all)), Snap(all), resultBitCount, resultData[..])
    ensures !ok ==> ReadRefused(all, u, up, host, old(Snap(all)), Snap(all))
    ensures Snap(all) == old(Snap(all))
  {
    BufferAllowed(u, up, host, resultData.Length, allowTruncation);
    NoEffect(all, u, up, host, Snap(all), [], false);
    ok, resultBitCount := LoadFromBuffer(u.buffer, resultData, allowTruncation, all);
    if ok {
      DirectRead(all, u, Snap(all), resultBitCount, resultData[..]);
    }
  }

  method BufferUnitWrite(u: FieldUnit, inputData: array<byte>, allowTruncation: bool, host: seq<Locks.Status>,
                         ghost up: ReadyRegions, ghost all: Arrays)
    returns (ok: bool)
    requires u.BufferUnit? && Covers(all, u) && inputData !in all
    modifies Memory(u)
    ensures ok <==> WriteAllowed(u, up, host, inputData.Length, allowTruncation)
    ensures ok ==> WriteDone(all, u, old(Snap(all)), Snap(all), inputData[..], true) &&
                   WriteDone(all, u, old(Snap(all)), Snap(all), inputData[..], false)
    ensures !ok ==> WriteRefused(all, u, up, host, old(Snap(all)), Snap(all), inputData[..], true) &&
                    WriteRefused(all, u, up, host, old(Snap(all)), Snap(all), inputData[..], false)
  {
    BufferAllowed(u, up, host, inputData.Length, allowTruncation);
    NoEffect(all, u, up, host, Snap(all), inputData[..], true);
    NoEffect(all, u, up, host, Snap(all), inputData[..], false);
    ok := StoreInBuffer(u.buffer, inputData, allowTruncation, all);
    if ok {
      BufferWritten(all, u, old(Snap(all)), Snap(all), inputData[..], true);
      BufferWritten(all, u, old(Snap(all)), Snap(all), inputData[..], false);
    }
  }

  /** The case of a plain field: its lock rule and AmlFieldRead. */
  method RegionUnitRead(state: LockState.LockState, u: FieldUnit, resultData: array<byte>, allowTruncation: bool,
                        host: seq<Locks.Status>, ghost up: ReadyRegions, ghost all: Arrays)
    returns (ok: bool, resultBitCount: nat, ghost held: int)
    requires u.RegionUnit? && Ready(state) && ReadyAre(u, up) && InDomain(u) && Covers(all, u) && resultData !in all
    requires LockCount(u) <= |host|
    modifies state, resultData
    ensures ok <==> ReadAllowed(u, up, host, resultData.Length, allowTruncation)
    ensures ok ==> ReadDone(all, u, old(Snap(all)), Snap(all), resultBitCount, resultData[..])
    ensures !ok ==> ReadRefused(all, u, up, host, old(Snap(all)), Snap(all))
    ensures Snap(all) == old(Snap(all))
    ensures ok ==> Accessed(u, old(state.Model()), state.Model(), held)
    ensures Neutral(old(state.Model()), state.Model())
  {
    ghost var s := state.Model();
    NeutralRefl(s);
    held := s.hardware;
    if u.lock {
      var locked := Lock(state, host[0]);
      if !locked {
        NothingAllowed(all, u, up, host, Snap(all), [], resultData.Length, allowTruncation);
        return false, 0, held;
      }
    }
    ghost var inner := state.Model();
    held := inner.hardware;
    FieldAllowed(u, up, host, resultData.Length, allowTruncation);
    ok, resultBitCount := LoadFromField(u.field, resultData, allowTruncation, Up(up, u.field.region), all);
    if ok {
      DirectRead(all, u, Snap(all), resultBitCount, resultData[..]);
    } else {
      FieldRefused(all, u, up, host, Snap(all), Snap(all), [], false);
    }
    if u.lock {
      Unlock(state, s);
      LockedAccess(u, s, inner, state.Model());
    } else {
      DirectAccess(u, s);
    }
  }

  /** The lock rule's release, with what the access inside it has done. */
  method UnlockAccess(state: LockState.LockState, u: FieldUnit, ghost s: Locks.Locks, ghost inner: Locks.Locks,
                      ok: bool,
                      ghost held: int)
    requires HasLockRule(u) && Locked(s, inner) && Neutral(inner, state.Model())
    requires ok ==> AccessedInside(u, inner, state.Model(), held)
    modifies state
    ensures Neutral(s, state.Model())
    ensures ok ==> Accessed(u, s, state.Model(), held)
  {
    ghost var after := state.Model();
    LockedNeutral(s, inner, after);
    Unlock(state, s);
    if ok {
      AccessedLocked(u, s, inner, after, state.Model(), held);
    }
  }

  /** AmlBankFieldRead: select the bank, then read. */
  method BankFieldRead(state: LockState.LockState, u: FieldUnit, resultData: array<byte>, allowTruncation: bool,
                       host: seq<Locks.Status>, ghost up: ReadyRegions, ghost all: Arrays)
    returns (ok: bool, resultBitCount: nat, ghost held: int)
    requires u.BankUnit? && Ready(state) && ReadyAre(u, up) && InDomain(u)
    requires Covers(all, u) && resultData !in all && LockCount(u) <= |host| && !LockRefused(u, host)
    modifies state, resultData, Memory(u)
    ensures ok <==> ReadAllowed(u, up, host, resultData.Length, allowTruncation)
    ensures ok ==> ReadDone(all, u, old(Snap(all)), Snap(all), resultBitCount, resultData[..])
    ensures !ok ==> ReadRefused(all, u, up, host, old(Snap(all)), Snap(all))
    ensures ok ==> AccessedInside(u, old(state.Model()), state.Model(), held)
    ensures Neutral(old(state.Model()), state.Model())
    decreases u, 1
  {
    resultBitCount := 0;
    ghost var pre := Snap(all);
    BankAllowed(u, up, host, resultData.Length, allowTruncation);
    ok, held := IntegerToFieldUnit(state, u.bankValue, u.bank, Inner(u, host), up, all);
    if !ok {
      SelectionRefused(all, u, up, host, pre, Snap(all), [], false);
      return false, 0, held;
    }
    ghost var t := state.Model();
    BankAccessed(u, old(state.Model()), t, held);
    held := t.hardware;
    ok, resultBitCount := LoadFromField(u.base, resultData, allowTruncation, Up(up, u.base.region), all);
    if ok {
      BankRead(all, u, pre, Snap(all), resultBitCount, resultData[..]);
    } else {
      BaseRefused(all, u, up, host, pre, Snap(all), Snap(all), [], false);
    }
  }

  /** AmlIndexFieldRead: write the byte offset to the index register, then read the data register. */
  method IndexFieldRead(state: LockState.LockState, u: FieldUnit, resultData: array<byte>, allowTruncation: bool,
                        host: seq<Locks.Status>, ghost up: ReadyRegions, ghost all: Arrays)
    returns (ok: bool, resultBitCount: nat, ghost held: int)
    requires u.IndexUnit? && Ready(state) && ReadyAre(u, up) && InDomain(u) &&
             ReadDomain(u, resultData.Length, allowTruncation)
    requires Covers(all, u) && resultData !in all && LockCount(u) <= |host| && !LockRefused(u, host)
    modifies state, resultData, Memory(u)
    ensures ok <==> ReadAllowed(u, up, host, resultData.Length, allowTruncation)
    ensures ok ==> ReadDone(all, u, old(Snap(all)), Snap(all), resultBitCount, resultData[..])
    ensures !ok ==> ReadRefused(all, u, up, host, old(Snap(all)), Snap(all))
    ensures ok ==> AccessedInside(u, old(state.Model()), state.Model(), held)
    ensures Neutral(old(state.Model()), state.Model())
    decreases u, 1
  {
    resultBitCount := 0;
    ghost var s, pre := state.Model(), Snap(all);
    IndexAllowed(u, up, host, resultData.Length, allowTruncation);
    ok, held := IntegerToFieldUnit(state, u.offset / 8, u.index, Inner(u, host), up, all);
    if !ok {
      SelectionRefused(all, u, up, host, pre, Snap(all), [], false);
      return false, 0, held;
    }
    ghost var t, mid, indexHeld := state.Model(), Snap(all), held;
    ok, resultBitCount, held :=
      FieldUnitRead(state, u.data, resultData, allowTruncation, Inner(u, host)[LockCount(u.index)..], up, all);
    NeutralTransitive(s, t, state.Model());
    if ok {
      IndexRead(all, u, pre, mid, Snap(all), resultBitCount, resultData[..]);
      IndexAccessed(u, s, t, state.Model(), indexHeld, held);
    } else {
      DataRefused(all, u, up, host, pre, mid, Snap(all), [], false);
    }
  }

  /** AmlConvIntegerToFieldUnit: the raw 64-bit value; only a buffer field pads and truncates by itself. */
  method IntegerToFieldUnit(state: LockState.LockState, value: nat, u: FieldUnit, host: seq<Locks.Status>,
                            ghost up: ReadyRegions, ghost all: Arrays)
    returns (ok: bool, ghost held: int)
    requires Ready(state) && ReadyAre(u, up) && InDomain(u) && value < Pow2(64) && Covers(all, u) &&
             LockCount(u) <= |host|
    modifies state, Memory(u)
    ensures ok <==> StoreAllowed(u, up, host)
    ensures ok ==> WriteDone(all, u, old(Snap(all)), Snap(all), ToLE(value, 8), false)
    ensures !ok ==> WriteRefused(all, u, up, host, old(Snap(all)), Snap(all), ToLE(value, 8), false)
    ensures ok ==> Accessed(u, old(state.Model()), state.Model(), held)
    ensures Neutral(old(state.Model()), state.Model())
    decreases u, 3
  {
    held := state.hardware;
    NeutralRefl(state.Model());
    var integerRaw := IntegerRaw(value);
    assert Snap(all) == old(Snap(all));
    if u.NotAField? {
      NothingToAllow(u, up, host, 8, false);
      NoEffect(all, u, up, host, Snap(all), ToLE(value, 8), false);
      return false, held;
    }
    if u.BufferUnit? {
      BufferAllowed(u, up, host, 8, true);
      ok := BufferUnitWrite(u, integerRaw, true, host, up, all);
      DirectAccess(u, state.Model());
    } else {
      StoreIsWrite(u, up, host);
      ok, held := FieldUnitWrite(state, u, integerRaw, false, host, up, all);
    }
  }

  /** An integer's eight raw bytes. */
  method IntegerRaw(value: nat) returns (integerRaw: array<byte>)
    ensures fresh(integerRaw) && integerRaw[..] == ToLE(value, 8)
  {
    var raw := ToLE(value, 8);
    integerRaw := new byte[8](i requires 0 <= i < 8 => raw[i]);
  }

  /** AmlFieldUnitWrite. */
  method FieldUnitWrite(state: LockState.LockState, u: FieldUnit, inputData: array<byte>, allowTruncation: bool,
                        host: seq<Locks.Status>, ghost up: ReadyRegions, ghost all: Arrays)
    returns (ok: bool, ghost held: int)
    requires Ready(state) && ReadyAre(u, up) && InDomain(u)
    requires Covers(all, u) && inputData !in all && LockCount(u) <= |host|
    modifies state, Memory(u)
    ensures ok <==> WriteAllowed(u, up, host, inputData.Length, allowTruncation)
    ensures ok ==> WriteDone(all, u, old(Snap(all)), Snap(all), inputData[..], allowTruncation)
    ensures !ok ==> WriteRefused(all, u, up, host, old(Snap(all)), Snap(all), inputData[..], allowTruncation)
    ensures ok ==> Accessed(u, old(state.Model()), state.Model(), held)
    ensures Neutral(old(state.Model()), state.Model())
    decreases u, 2
  {
    ghost var s := state.Model();
    ghost var inner := s;
    held := s.hardware;
    NeutralRefl(s);
    match u
    case BufferUnit(b) =>
      ok := BufferUnitWrite(u, inputData, allowTruncation, host, up, all);
      DirectAccess(u, s);
    case RegionUnit(_, _) =>
      ok, held := RegionUnitWrite(state, u, inputData, allowTruncation, host, up, all);
    case BankUnit(f, lock, bank, bankValue) =>
      if lock {
        var locked := Lock(state, host[0]);
        if !locked {
          NothingAllowed(all, u, up, host, Snap(all), inputData[..], inputData.Length, allowTruncation);
          return false, held;
        }
      }
      inner := state.Model();
      assert Snap(all) == old(Snap(all));
      ok, held := BankFieldWrite(state, u, inputData, allowTruncation, host, up, all);
      if lock {
        UnlockAccess(state, u, s, inner, ok, held);
      } else if ok {
        AccessedPlainly(u, s, state.Model(), held);
      }
    case IndexUnit(offset, lock, index, data) =>
      if lock {
        var locked := Lock(state, host[0]);
        if !locked {
          NothingAllowed(all, u, up, host, Snap(all), inputData[..], inputData.Length, allowTruncation);
          return false, held;
        }
      }
      inner := state.Model();
      assert Snap(all) == old(Snap(all));
      ok, held := IndexFieldWrite(state, u, inputData, allowTruncation, host, up, all);
      if lock {
        UnlockAccess(state, u, s, inner, ok, held);
      } else if ok {
        AccessedPlainly(u, s, state.Model(), held);
      }
    case NotAField =>
      NothingToAllow(u, up, host, inputData.Length, allowTruncation);
      NoEffect(all, u, up, host, Snap(all), inputData[..], allowTruncation);
      return false, held;
  }

  /** The case of a plain field: its lock rule and AmlFieldWrite. */
  method RegionUnitWrite(state: LockState.LockState, u: FieldUnit, inputData: array<byte>, allowTruncation: bool,
                         host: seq<Locks.Status>, ghost up: ReadyRegions, ghost all: Arrays)
    returns (ok: bool, ghost held: int)
    requires u.RegionUnit? && Ready(state) && ReadyAre(u, up) && InDomain(u) && Covers(all, u) && inputData !in all
    requires LockCount(u) <= |host|
    modifies state, Memory(u)
    ensures ok <==> WriteAllowed(u, up, host, inputData.Length, allowTruncation)
    ensures ok ==> WriteDone(all, u, old(Snap(all)), Snap(all), inputData[..], allowTruncation)
    ensures !ok ==> WriteRefused(all, u, up, host, old(Snap(all)), Snap(all), inputData[..], allowTruncation)
    ensures ok ==> Accessed(u, old(state.Model()), state.Model(), held)
    ensures Neutral(old(state.Model()), state.Model())
  {
    ghost var s, pre := state.Model(), Snap(all);
    NeutralRefl(s);
    held := s.hardware;
    if u.lock {
      var locked := Lock(state, host[0]);
      if !locked {
        NothingAllowed(all, u, up, host, Snap(all), inputData[..], inputData.Length, allowTruncation);
        return false, held;
      }
    }
    ghost var inner := state.Model();
    held := inner.hardware;
    FieldAllowed(u, up, host, inputData.Length, allowTruncation);
    ok := StoreInField(u.field, inputData, allowTruncation, Up(up, u.field.region), all);
    if ok {
      DirectWritten(all, u, pre, Snap(all), inputData[..], allowTruncation);
    } else {
      FieldRefused(all, u, up, host, pre, Snap(all), inputData[..], allowTruncation);
    }
    if u.lock {
      Unlock(state, s);
      LockedAccess(u, s, inner, state.Model());
    } else {
      DirectAccess(u, s);
    }
  }

  /** AmlBankFieldWrite: the bank register holds the bank value when the field is written. */
  method BankFieldWrite(state: LockState.LockState, u: FieldUnit, inputData: array<byte>, allowTruncation: bool,
                        host: seq<Locks.Status>, ghost up: ReadyRegions, ghost all: Arrays)
    returns (ok: bool, ghost held: int)
    requires u.BankUnit? && Ready(state) && ReadyAre(u, up) && InDomain(u)
    requires Covers(all, u) && inputData !in all && LockCount(u) <= |host| && !LockRefused(u, host)
    modifies state, Memory(u)
    ensures ok <==> WriteAllowed(u, up, host, inputData.Length, allowTruncation)
    ensures ok ==> WriteDone(all, u, old(Snap(all)), Snap(all), inputData[..], allowTruncation)
    ensures !ok ==> WriteRefused(all, u, up, host, old(Snap(all)), Snap(all), inputData[..], allowTruncation)
    ensures ok ==> AccessedInside(u, old(state.Model()), state.Model(), held)
    ensures Neutral(old(state.Model()), state.Model())
    decreases u, 1
  {
    ghost var pre := Snap(all);
    BankAllowed(u, up, host, inputData.Length, allowTruncation);
    ok, held := IntegerToFieldUnit(state, u.bankValue, u.bank, Inner(u, host), up, all);
    if !ok {
      SelectionRefused(all, u, up, host, pre, Snap(all), inputData[..], allowTruncation);
      return false, held;
    }
    ghost var t, mid := state.Model(), Snap(all);
    BankAccessed(u, old(state.Model()), t, held);
    held := t.hardware;
    ok := StoreInField(u.base, inputData, allowTruncation, Up(up, u.base.region), all);
    if ok {
      BankWritten(all, u, pre, mid, Snap(all), inputData[..], allowTruncation);
    } else {
      BaseRefused(all, u, up, host, pre, mid, Snap(all), inputData[..], allowTruncation);
    }
  }

  /** AmlIndexFieldWrite. */
  method IndexFieldWrite(state: LockState.LockState, u: FieldUnit, inputData: array<byte>, allowTruncation: bool,
                         host: seq<Locks.Status>, ghost up: ReadyRegions, ghost all: Arrays)
    returns (ok: bool, ghost held: int)
    requires u.IndexUnit? && Ready(state) && ReadyAre(u, up) && InDomain(u)
    requires Covers(all, u) && inputData !in all && LockCount(u) <= |host| && !LockRefused(u, host)
    modifies state, Memory(u)
    ensures ok <==> WriteAllowed(u, up, host, inputData.Length, allowTruncation)
    ensures ok ==> WriteDone(all, u, old(Snap(all)), Snap(all), inputData[..], allowTruncation)
    ensures !ok ==> WriteRefused(all, u, up, host, old(Snap(all)), Snap(all), inputData[..], allowTruncation)
    ensures ok ==> AccessedInside(u, old(state.Model()), state.Model(), held)
    ensures Neutral(old(state.Model()), state.Model())
    decreases u, 1
  {
    ghost var s, pre := state.Model(), Snap(all);
    IndexAllowed(u, up, host, inputData.Length, allowTruncation);
    ok, held := IntegerToFieldUnit(state, u.offset / 8, u.index, Inner(u, host), up, all);
    if !ok {
      SelectionRefused(all, u, up, host, pre, Snap(all), inputData[..], allowTruncation);
      return false, held;
    }
    ghost var t, mid, indexHeld := state.Model(), Snap(all), held;
    ok, held := FieldUnitWrite(state, u.data, inputData, allowTruncation, Inner(u, host)[LockCount(u.index)..], up,
                               all);
    NeutralTransitive(s, t, state.Model());
    if ok {
      IndexWritten(all, u, pre, mid, Snap(all), inputData[..], allowTruncation);
      IndexAccessed(u, s, t, state.Model(), indexHeld, held);
    } else {
      DataRefused(all, u, up, host, pre, mid, Snap(all), inputData[..], allowTruncation);
    }
  }

  // ------------------------------------------------ integer round trip

  /** The integer case of AmlConvFieldUnitStore: the field's bits as a 64-bit integer. */
  method FieldUnitToInteger(state: LockState.LockState, u: FieldUnit, host: seq<Locks.Status>, ghost up: ReadyRegions,
                            ghost all: Arrays)
    returns (ok: bool, value: nat)
    requires Ready(state) && ReadyAre(u, up) && InDomain(u) && ReadDomain(u, 8, true) && Covers(all, u) &&
             LockCount(u) <= |host|
    modifies state, Memory(u)
    ensures ok <==> ReadAllowed(u, up, host, 8, true)
    ensures ok ==> ReadEffect(all, u, old(Snap(all)), Snap(all)) && Loaded(all, Target(u), Snap(all), value)
    ensures !ok ==> ReadRefused(all, u, up, host, old(Snap(all)), Snap(all))
    ensures Neutral(old(state.Model()), state.Model())
  {
    var integerRaw := IntegerRaw(0);
    var n;
    ghost var held;
    assert Snap(all) == old(Snap(all));
    ok, n, held := FieldUnitRead(state, u, integerRaw, true, host, up, all);
    value := FromLE(integerRaw[..]);
    ghost var r := integerRaw[..];
    assert |r| == 8;
    assert Open(EFFECT, 0);
  }

  /**
   An integer stored in a field of any kind and read back is reduced modulo 2 to the field's
   length, if its registers lie elsewhere; both accesses go through exactly if each is allowed.
   */
  method StoreThenLoad(state: LockState.LockState, u: FieldUnit, v: nat, storeHost: seq<Locks.Status>,
                       loadHost: seq<Locks.Status>, ghost up: ReadyRegions, ghost all: Arrays)
    returns (ok: bool, w: nat)
    requires Ready(state) && ReadyAre(u, up) && InDomain(u) && ReadDomain(u, 8, true) && v < Pow2(64) && Covers(all, u)
    requires LockCount(u) <= |storeHost| && LockCount(u) <= |loadHost|
    modifies state, Memory(u)
    ensures ok <==> StoreAllowed(u, up, storeHost) && ReadAllowed(u, up, loadHost, 8, true)
    ensures ok && Separate(u) ==> w == v % Pow2(Target(u).length)
    ensures Neutral(old(state.Model()), state.Model())
  {
    ghost var s := state.Model();
    ghost var pre := Snap(all);
    ghost var held;
    ok, held := IntegerToFieldUnit(state, v, u, storeHost, up, all);
    if !ok {
      return false, 0;
    }
    ghost var t, mid := state.Model(), Snap(all);
    ok, w := FieldUnitToInteger(state, u, loadHost, up, all);
    NeutralTransitive(s, t, state.Model());
    if ok && Separate(u) {
      assert Open(EFFECT, 0);
      LoadedBack(all, u, pre, mid, Snap(all), v, w);
    }
  }

  /** A field that an integer can be stored in can be read as one, except a buffer field of more than 64 bits. */
  lemma {:induction false} ReadableOnceStorable(u: FieldUnit, up: ReadyRegions)
    requires CanStore(u, up) && (Target(u).length <= 64 || !EndsInBuffer(u))
    ensures CanRead(u, up, 8, true)
    decreases u
  {
    match u
    case RegionUnit(f, _) => ReadableOnceWritten(f, Up(up, f.region));
    case BankUnit(f, _, _, _) => ReadableOnceWritten(f, Up(up, f.region));
    case IndexUnit(_, _, _, data) => ReadableOnceWritable(data, up);
    case _ =>
  }

  lemma {:induction false} ReadableOnceWritable(u: FieldUnit, up: ReadyRegions)
    requires CanWrite(u, up, 8, false) && (Target(u).length <= 64 || !EndsInBuffer(u))
    ensures CanRead(u, up, 8, true)
    decreases u
  {
    match u
    case RegionUnit(f, _) => ReadableOnceWritten(f, Up(up, f.region));
    case BankUnit(f, _, _, _) => ReadableOnceWritten(f, Up(up, f.region));
    case IndexUnit(_, _, _, data) => ReadableOnceWritable(data, up);
    case _ =>
  }

  predicate EndsInBuffer(u: FieldUnit) {
    u.BufferUnit? || (u.IndexUnit? && EndsInBuffer(u.data))
  }

  lemma ReadableOnceWritten(f: Field, ready: bool)
    requires WriteGoes(f, ready)
    ensures ReadGoes(f, ready, 8, true)
  {
    var w := WidthOf(f.access);
    if f.length > 64 {
      LaterWord(f.offset + 63, f.offset + f.length, w);
      assert AlignUp(f.offset + 64, w) == w + AlignDown(f.offset + 63, w);
    }
  }
}
