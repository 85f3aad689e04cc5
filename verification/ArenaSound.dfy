/**
 Exactly which steps and runs of the arena keep memory sound, whatever the open snapshots
 look like: a reset leaves snapshots behind whose chunk is free or used for something else.
 */
module ArenaSound {
  import opened ChunkList
  import opened ArenaState
  import opened ArenaSteps
  import opened ArenaRuns
  import opened ArenaTheorems
  import opened Folding

  // ------------------------------------------------------------ invariant

  predicate Ends(m: Chunks, x: Placed, used: nat) {
    x.chunk in m && Address(m, x) + x.size <= m[x.chunk].addr + used
  }

  /** What was live at a snapshot is apart, and ends within the snapshot's chunk as far as it was used. */
  ghost predicate SnapshotMemory(m: Chunks, s: Snapshot) {
    (s.chunk.None? ==> s.live == []) &&
    (forall i :: 0 <= i < |s.live| ==> s.live[i].chunk in m) &&
    (forall i :: 0 <= i < |s.live| && s.chunk == Some(s.live[i].chunk) ==> Ends(m, s.live[i], s.used)) &&
    (forall i, j :: 0 <= i < j < |s.live| ==> NoOverlap(m, s.live[i], s.live[j]))
  }

  ghost predicate SnapshotsMemory(m: Chunks, snapshots: seq<Snapshot>) {
    forall i :: 0 <= i < |snapshots| ==> SnapshotMemory(m, snapshots[i])
  }

  ghost predicate MemoryInv(s: State) {
    SoundMemory(s) && MemoryOk(s.chunks) && SnapshotsMemory(s.chunks, s.snapshots)
  }

  /** Chunks stay where they are, and as long as they are. */
  ghost predicate SameMemory(m: Chunks, n: Chunks) {
    forall c :: c in m ==> c in n && n[c].addr == m[c].addr && n[c].total == m[c].total
  }

  lemma SnapshotsStay(m: Chunks, n: Chunks, snapshots: seq<Snapshot>)
    requires SameMemory(m, n) && SnapshotsMemory(m, snapshots)
    ensures SnapshotsMemory(n, snapshots)
  {
    forall i | 0 <= i < |snapshots| ensures SnapshotMemory(n, snapshots[i]) {
      SnapshotStays(m, n, snapshots[i]);
    }
  }

  lemma SnapshotStays(m: Chunks, n: Chunks, s: Snapshot)
    requires SameMemory(m, n) && SnapshotMemory(m, s)
    ensures SnapshotMemory(n, s)
  {
    forall i | 0 <= i < |s.live| && s.chunk == Some(s.live[i].chunk) ensures Ends(n, s.live[i], s.used) {
      assert Ends(m, s.live[i], s.used);
    }
    forall i, j | 0 <= i < j < |s.live| ensures NoOverlap(n, s.live[i], s.live[j]) {
      ApartStays(m, n, s.live[i], s.live[j]);
    }
  }

  lemma ListedUnique(s: State, a: seq<nat>, f: seq<nat>, b: seq<nat>, g: seq<nat>)
    requires Listed(s, a, f) && Listed(s, b, g)
    ensures a == b
  {
    if a != [] && b != [] {
      assert Open(CHAIN, 0);
      SameChain(s.chunks, a, b);
    }
  }

  // -------------------------------------------------------------- the guard

  /** d is an active chunk, and c is it or comes after it. */
  ghost predicate Kept(s: State, c: nat, d: nat) {
    exists a, f, pos :: Listed(s, a, f) && 0 < pos <= |a| && a[pos - 1] == c && d in a[..pos]
  }

  /** What was live at the snapshot is in its chunk, or in the used part of an active chunk before it. */
  ghost predicate Restorable(s: State, top: Snapshot) {
    top.chunk.Some? &&
    forall i :: 0 <= i < |top.live| ==>
      top.live[i].chunk == top.chunk.value ||
      (Kept(s, top.chunk.value, top.live[i].chunk) && top.live[i].chunk in s.chunks &&
       Ends(s.chunks, top.live[i], s.chunks[top.live[i].chunk].used))
  }

  /**
   As written, no chunk is refused while one is current, and a rollback is to no chunk or
   to the current one; as intended, it is to no chunk or to an active one.  And what the
   rollback brings back to life must still have its memory.
   */
  ghost predicate Safe(v: Variant, s: State, op: Op)
    requires Closed(s) && Allowed(s, op)
  {
    match op
    case Allocate(size, backend, newId) =>
      v.AsWritten? && AllocationFails(s, size, backend) ==> s.current.None?
    case Rollback =>
      var top := s.snapshots[|s.snapshots| - 1];
      top.chunk.None? ||
      ((if v.AsWritten? then top.chunk == s.current else Kept(s, top.chunk.value, top.chunk.value)) &&
       Restorable(s, top))
    case _ => true
  }

  // ------------------------------------------------------------- allocation

  /** The arena with nothing live and no snapshot. */
  function Bare(s: State): State {
    s.(snapshots := [], live := [])
  }

  lemma BareGood(s: State, a: seq<nat>, f: seq<nat>)
    requires Listed(s, a, f) && Partition(s.chunks, a, f) && MemoryOk(s.chunks)
    ensures Good(Bare(s), View(a, f, [], []))
  {
  }

  lemma CreateBare(s: State, minimumSize: nat, backend: Option<nat>, newId: nat)
    requires Closed(s) && newId !in s.chunks && !CannotCreate(s, minimumSize, backend)
    ensures Closed(Bare(s)) && !CannotCreate(Bare(s), minimumSize, backend)
    ensures Create(Bare(s), minimumSize, backend, newId) == Bare(Create(s, minimumSize, backend, newId))
  {
  }

  /** A creation touches the use of the chunk it makes current alone. */
  lemma CreateData(s: State, minimumSize: nat, backend: Option<nat>, newId: nat)
    requires Closed(s) && newId !in s.chunks && !CannotCreate(s, minimumSize, backend)
    ensures var t := Create(s, minimumSize, backend, newId);
            SameMemory(s.chunks, t.chunks) && t.live == s.live && t.snapshots == s.snapshots &&
            forall d :: d in s.chunks && d != t.current.value ==> SameData(s.chunks, t.chunks, d)
  {
    var found := FreeChunk(s, minimumSize);
    if found.Some? {
      TakeFreeData(s, found.value);
      LinkData(TakeFree(s, found.value), found.value);
    } else {
      LinkData(NewChunk(s, newId, backend.value, Max(minimumSize, s.base)), newId);
    }
  }

  lemma TakeFreeData(s: State, c: nat)
    requires Closed(s) && c in s.chunks
    ensures var t := TakeFree(s, c);
            SameMemory(s.chunks, t.chunks) && t.live == s.live && t.snapshots == s.snapshots &&
            forall d :: d in s.chunks && d != c ==> SameData(s.chunks, t.chunks, d)
  {
    var emptied := s.chunks[c := s.chunks[c].(used := 0)];
    EmptyCloses(s.chunks, c);
    RemoveCloses(emptied, s.free, c);
    assert SameContents(emptied, TakeFree(s, c).chunks);
  }

  lemma LinkData(s: State, c: nat)
    requires Closed(s) && c in s.chunks
    ensures var t := LinkChunk(s, c);
            SameContents(s.chunks, t.chunks) && t.live == s.live && t.snapshots == s.snapshots
  {
  }

  lemma CreateSound(s: State, minimumSize: nat, backend: Option<nat>, newId: nat)
    requires Closed(s) && MemoryInv(s) && newId !in s.chunks && !CannotCreate(s, minimumSize, backend)
    requires backend.Some? ==>
               forall c :: c in s.chunks ==> ApartFrom(backend.value, Max(minimumSize, s.base), s.chunks[c])
    ensures MemoryInv(Create(s, minimumSize, backend, newId))
  {
    var a, f :| Listed(s, a, f) && Partition(s.chunks, a, f) && LiveIn(s.chunks, a, s.live);
    var t := Create(s, minimumSize, backend, newId);
    BareGood(s, a, f);
    CreateBare(s, minimumSize, backend, newId);
    var f2 := CreateKeeps(Bare(s), View(a, f, [], []), minimumSize, backend, newId);
    var b := a + [t.current.value];
    ListedChunks(t.chunks, b, f2, [], []);
    FactsMemory(t.chunks, b, f2, [], []);
    CreateData(s, minimumSize, backend, newId);
    NotBefore(a, t.current.value);
    LiveStays(s.chunks, t.chunks, a, b, s.live);
    SnapshotsStay(s.chunks, t.chunks, s.snapshots);
    assert Listed(t, b, f2);
  }

  lemma FactsMemory(m: Chunks, a: seq<nat>, f: seq<nat>, live: seq<Allocation>, snaps: seq<Saved>)
    requires Facts(m, a, f, live, snaps)
    ensures MemoryOk(m)
  {
    assert Open(ARENA, 0);
  }

  lemma NotBefore(a: seq<nat>, c: nat)
    requires Distinct(a + [c])
    ensures c !in a
  {
    assert (a + [c])[|a|] == c;
    assert forall i :: 0 <= i < |a| ==> (a + [c])[i] == a[i];
  }

  /** Allocations stay where they are when their chunks keep what they hold. */
  lemma LiveStays(m: Chunks, n: Chunks, a: seq<nat>, b: seq<nat>, live: seq<Placed>)
    requires LiveIn(m, a, live)
    requires forall d :: d in a ==> d in b && SameData(m, n, d)
    ensures LiveIn(n, b, live)
  {
    forall i | 0 <= i < |live|
      ensures live[i].chunk in b && Inside(n, live[i]) && Address(n, live[i]) == Address(m, live[i])
    {
      assert live[i].chunk in a && Inside(m, live[i]);
    }
  }

  lemma SlotSound(s: State, size: nat)
    requires Closed(s) && MemoryInv(s) && Fits(s, size + ALIGNMENT)
    ensures MemoryInv(TakeSlot(s, size))
  {
    var a, f :| Listed(s, a, f) && Partition(s.chunks, a, f) && LiveIn(s.chunks, a, s.live);
    var t := TakeSlot(s, size);
    SlotLists(s, a, f, size);
    SlotLive(s.chunks, t.chunks, a, s.live, s.current.value, size);
    SnapshotsStay(s.chunks, t.chunks, s.snapshots);
    SlotMemory(s.chunks, s.current.value, size);
  }

  lemma SlotLists(s: State, a: seq<nat>, f: seq<nat>, size: nat)
    requires Closed(s) && Fits(s, size + ALIGNMENT) && Listed(s, a, f) && Partition(s.chunks, a, f)
    ensures Listed(TakeSlot(s, size), a, f) && Partition(TakeSlot(s, size).chunks, a, f)
  {
    ChainSame(s.chunks, TakeSlot(s, size).chunks, s.active, a);
    ChainSame(s.chunks, TakeSlot(s, size).chunks, s.free, f);
  }

  lemma SlotMemory(m: Chunks, c: nat, size: nat)
    requires MemoryOk(m) && c in m && size + ALIGNMENT <= m[c].total - m[c].used
    ensures MemoryOk(m[c := m[c].(used := m[c].used + size + ALIGNMENT)])
  {
  }

  lemma SlotLive(m: Chunks, n: Chunks, a: seq<nat>, live: seq<Placed>, c: nat, size: nat)
    requires MemoryOk(m) && LiveIn(m, a, live) && c in a && c in m && size + ALIGNMENT <= m[c].total - m[c].used
    requires n == m[c := m[c].(used := m[c].used + size + ALIGNMENT)]
    ensures LiveIn(n, a, live + [Placed(c, m[c].used, size)])
  {
    var x := Placed(c, m[c].used, size);
    assert Inside(n, x);
    forall i | 0 <= i < |live| ensures live[i].chunk in a && Inside(n, live[i]) && NoOverlap(n, live[i], x) {
      assert live[i].chunk in a && Inside(m, live[i]);
      SlotApart(m, n, live[i], x);
    }
    forall i, j | 0 <= i < j < |live| ensures NoOverlap(n, live[i], live[j]) {
      ApartStays(m, n, live[i], live[j]);
    }
  }

  lemma ApartStays(m: Chunks, n: Chunks, x: Placed, y: Placed)
    requires SameMemory(m, n) && NoOverlap(m, x, y)
    ensures NoOverlap(n, x, y)
  {
  }

  lemma SlotApart(m: Chunks, n: Chunks, y: Placed, x: Placed)
    requires MemoryOk(m) && Inside(m, y) && x.chunk in m && x.from == m[x.chunk].used
    requires x.size + ALIGNMENT <= m[x.chunk].total - x.from
    requires n == m[x.chunk := m[x.chunk].(used := x.from + x.size + ALIGNMENT)]
    ensures Inside(n, y) && NoOverlap(n, y, x)
  {
    if y.chunk != x.chunk {
      assert ApartFrom(m[y.chunk].addr, m[y.chunk].total, m[x.chunk]);
    }
  }

  lemma AllocateSound(v: Variant, s: State, size: nat, backend: Option<nat>, newId: nat)
    requires Closed(s) && MemoryInv(s) && Allowed(s, Allocate(size, backend, newId))
    requires v.AsWritten? && AllocationFails(s, size, backend) ==> s.current.None?
    ensures MemoryInv(AllocateStep(v, s, size, backend, newId))
  {
    var n := size + ALIGNMENT;
    if size < SIZE_MAX - ALIGNMENT {
      if Fits(s, n) {
        SlotSound(s, size);
      } else if !CannotCreate(s, n, backend) {
        CreateSound(s, n, backend, newId);
        SlotSound(Create(s, n, backend, newId), size);
      }
    }
  }

  /** A state with active chunks and no current one is not sound. */
  lemma ForgottenUnsound(s: State)
    requires SoundMemory(s) && s.current.Some?
    ensures !SoundMemory(s.(current := None))
  {
    assert SoundMemory(s.(current := None)) ==> s.active.last == None;
  }

  // ------------------------------------------------------ snapshots, resets

  lemma SnapSound(s: State)
    requires Closed(s) && MemoryInv(s)
    ensures MemoryInv(SnapStep(s))
  {
    var a, f :| Listed(s, a, f) && Partition(s.chunks, a, f) && LiveIn(s.chunks, a, s.live);
    var t := SnapStep(s);
    var top := t.snapshots[|s.snapshots|];
    forall i | 0 <= i < |top.live| ensures top.live[i].chunk in s.chunks {
      assert Inside(s.chunks, top.live[i]);
    }
    forall i | 0 <= i < |top.live| && top.chunk == Some(top.live[i].chunk)
      ensures Ends(s.chunks, top.live[i], top.used)
    {
      assert Inside(s.chunks, top.live[i]);
    }
    assert top.live == [] || top.live[0].chunk in a;
    assert SnapshotMemory(s.chunks, top);
    assert Listed(t, a, f);
  }

  lemma CommitSound(s: State)
    requires Closed(s) && MemoryInv(s) && s.snapshots != []
    ensures MemoryInv(CommitStep(s))
  {
    var a, f :| Listed(s, a, f) && Partition(s.chunks, a, f) && LiveIn(s.chunks, a, s.live);
    assert Listed(CommitStep(s), a, f);
  }

  lemma ResetSound(s: State)
    requires Closed(s) && MemoryInv(s)
    ensures MemoryInv(ResetStep(s))
  {
    var a, f :| Listed(s, a, f) && Partition(s.chunks, a, f) && LiveIn(s.chunks, a, s.live);
    var t := ResetStep(s);
    ResetLists(s, a, f);
    SnapshotsStay(s.chunks, t.chunks, s.snapshots);
    AllFree(s.chunks, t.chunks, a, f);
  }

  lemma AllFree(m: Chunks, n: Chunks, a: seq<nat>, f: seq<nat>)
    requires Partition(m, a, f) && MemoryOk(m) && SameContents(m, n)
    ensures Partition(n, [], f + a) && MemoryOk(n) && LiveIn(n, [], [])
  {
  }

  // -------------------------------------------------------------- rollbacks

  /** Back to an active chunk, with the tails right. */
  lemma RollbackExact(s: State, a: seq<nat>, f: seq<nat>, pos: nat)
    requires Closed(s) && MemoryInv(s) && s.snapshots != [] && Listed(s, a, f) && Partition(s.chunks, a, f)
    requires 0 < pos <= |a| && s.snapshots[|s.snapshots| - 1].chunk == Some(a[pos - 1])
    ensures var u := RollbackStep(AsIntended, s);
            if Restorable(s, s.snapshots[|s.snapshots| - 1]) then MemoryInv(u) else !SoundMemory(u)
  {
    var top, u := s.snapshots[|s.snapshots| - 1], RollbackStep(AsIntended, s);
    RollbackState(s, a, f, pos);
    UsedWithin(u);
    RestoredIff(s, u.chunks, a, f, pos, top);
    SoundIffLive(u, a[..pos], f + a[pos..]);
    SnapshotsStay(s.chunks, u.chunks, u.snapshots);
    BackMemoryOk(s.chunks, u.chunks);
  }

  lemma RollbackState(s: State, a: seq<nat>, f: seq<nat>, pos: nat)
    requires Closed(s) && s.snapshots != [] && Listed(s, a, f) && Partition(s.chunks, a, f)
    requires 0 < pos <= |a| && s.snapshots[|s.snapshots| - 1].chunk == Some(a[pos - 1])
    ensures var top, u := s.snapshots[|s.snapshots| - 1], RollbackStep(AsIntended, s);
            Listed(u, a[..pos], f + a[pos..]) && Partition(u.chunks, a[..pos], f + a[pos..]) &&
            u.live == top.live && u.snapshots == s.snapshots[..|s.snapshots| - 1] &&
            u.chunks.Keys == s.chunks.Keys &&
            forall d :: d in s.chunks ==>
              u.chunks[d].addr == s.chunks[d].addr && u.chunks[d].total == s.chunks[d].total &&
              u.chunks[d].used == if d == a[pos - 1] then top.used else s.chunks[d].used
  {
    RollbackLists(s, a, f, pos);
    BackPartition(s.chunks, RollbackStep(AsIntended, s).chunks, a, f, pos);
    BackApart(a, f, pos);
  }

  lemma UsedWithin(s: State)
    requires Closed(s)
    ensures forall c :: c in s.chunks ==> s.chunks[c].used <= s.chunks[c].total
  {
    assert Open(CLOSED, 0);
  }

  lemma SoundIffLive(s: State, a: seq<nat>, f: seq<nat>)
    requires Listed(s, a, f) && Partition(s.chunks, a, f)
    ensures SoundMemory(s) <==> LiveIn(s.chunks, a, s.live)
  {
    if SoundMemory(s) {
      var b, g :| Listed(s, b, g) && LiveIn(s.chunks, b, s.live);
      ListedUnique(s, a, f, b, g);
    }
  }

  lemma BackApart(a: seq<nat>, f: seq<nat>, pos: nat)
    requires Apart(a, f) && pos <= |a|
    ensures Apart(a[..pos], f + a[pos..])
  {
  }

  lemma BackMemoryOk(m: Chunks, n: Chunks)
    requires MemoryOk(m) && n.Keys == m.Keys && SameMemory(m, n) && forall c :: c in n ==> n[c].used <= n[c].total
    ensures MemoryOk(n)
  {
  }

  lemma RestoredIff(s: State, n: Chunks, a: seq<nat>, f: seq<nat>, pos: nat, top: Snapshot)
    requires Listed(s, a, f) && 0 < pos <= |a| && top.chunk == Some(a[pos - 1]) && SnapshotMemory(s.chunks, top)
    requires n.Keys == s.chunks.Keys && MemoryOk(s.chunks) && (forall c :: c in n ==> n[c].used <= n[c].total)
    requires forall d :: d in s.chunks ==>
               n[d].addr == s.chunks[d].addr && n[d].total == s.chunks[d].total &&
               n[d].used == if d == a[pos - 1] then top.used else s.chunks[d].used
    ensures LiveIn(n, a[..pos], top.live) <==> Restorable(s, top)
  {
    var c := a[pos - 1];
    forall i | 0 <= i < |top.live|
      ensures top.live[i].chunk in a[..pos] && Inside(n, top.live[i]) <==>
              top.live[i].chunk == c ||
              (Kept(s, c, top.live[i].chunk) && top.live[i].chunk in s.chunks &&
               Ends(s.chunks, top.live[i], s.chunks[top.live[i].chunk].used))
    {
      var x := top.live[i];
      KeptIff(s, a, f, pos, x.chunk);
      assert a[..pos][pos - 1] == c;
      assert x.chunk == c ==> Ends(s.chunks, x, top.used);
    }
    forall i, j | 0 <= i < j < |top.live| ensures NoOverlap(n, top.live[i], top.live[j]) {
      ApartStays(s.chunks, n, top.live[i], top.live[j]);
    }
  }

  lemma KeptIff(s: State, a: seq<nat>, f: seq<nat>, pos: nat, d: nat)
    requires Listed(s, a, f) && 0 < pos <= |a|
    ensures Kept(s, a[pos - 1], d) <==> d in a[..pos]
  {
    if Kept(s, a[pos - 1], d) {
      var b, g, k :| Listed(s, b, g) && 0 < k <= |b| && b[k - 1] == a[pos - 1] && d in b[..k];
      ListedUnique(s, a, f, b, g);
      assert k == pos;
    }
  }

  /** Back to a chunk that is free: whatever is moved, the active chain stays what it was. */
  lemma FreeRollback(v: Variant, s: State, a: seq<nat>, f: seq<nat>, c: nat)
    requires Closed(s) && Listed(s, a, f) && s.snapshots != [] && c in f
    requires s.snapshots[|s.snapshots| - 1].chunk == Some(c)
    ensures !SoundMemory(RollbackStep(v, s))
  {
    var t := RollbackStep(v, s);
    FreeMove(v, CommitStep(s), a, f, c);
    if v.AsIntended? && SoundMemory(t) {
      var b, g :| Listed(t, b, g);
      assert Open(CHAIN, 0);
      StillOpen(s.chunks, t.chunks, a);
      SameChain(t.chunks, a, b);
    }
  }

  lemma StillOpen(m: Chunks, n: Chunks, a: seq<nat>)
    requires ChainOpen(m, a) && SameLinks(m, n, a)
    ensures ChainOpen(n, a)
  {
    forall i | 0 <= i < |a| ensures Linked(n, a, i) {
      assert Linked(m, a, i);
    }
  }

  lemma FreeMove(v: Variant, s: State, a: seq<nat>, f: seq<nat>, c: nat)
    requires Closed(s) && Listed(s, a, f) && c in f && c in s.chunks
    ensures var t := MoveTail(v, s, c);
            t.active.first == s.active.first && SameLinks(s.chunks, t.chunks, a)
  {
    var k :| 0 <= k < |f| && f[k] == c;
    ChainMember(s.chunks, s.free, f, k);
    ChainMember(s.chunks, s.free, f, |f| - 1);
    if k + 1 < |f| {
      ChainMember(s.chunks, s.free, f, k + 1);
      TransplantCloses(s.chunks, s.active, s.free, f[k + 1]);
    }
  }

  /** As written, back to an active chunk that is not the last one. */
  lemma WrittenUnsound(s: State, a: seq<nat>, f: seq<nat>, pos: nat)
    requires Closed(s) && Listed(s, a, f) && 0 < pos < |a| && s.snapshots != []
    requires s.snapshots[|s.snapshots| - 1].chunk == Some(a[pos - 1])
    ensures !SoundMemory(RollbackStep(AsWritten, s))
  {
    RolledBackWrong(s, a, f, pos);
  }

  /** Nothing follows the last active chunk, so going back to it moves nothing. */
  lemma LastMovesNothing(s: State, a: seq<nat>, f: seq<nat>)
    requires Closed(s) && Listed(s, a, f) && a != [] && s.snapshots != []
    requires s.snapshots[|s.snapshots| - 1].chunk == Some(a[|a| - 1])
    ensures RollbackStep(AsWritten, s) == RollbackStep(AsIntended, s)
  {
    ChainMember(s.chunks, s.active, a, |a| - 1);
  }

  lemma RollbackSoundIff(v: Variant, s: State)
    requires Closed(s) && MemoryInv(s) && s.snapshots != [] && s.snapshots[|s.snapshots| - 1].chunk.Some?
    ensures if Safe(v, s, Rollback) then MemoryInv(RollbackStep(v, s)) else !SoundMemory(RollbackStep(v, s))
  {
    var c := s.snapshots[|s.snapshots| - 1].chunk.value;
    var a, f :| Listed(s, a, f) && Partition(s.chunks, a, f) && LiveIn(s.chunks, a, s.live);
    if c in f {
      FreeRollback(v, s, a, f, c);
      NotKept(s, a, f, c);
    } else {
      assert c in a;
      var i :| 0 <= i < |a| && a[i] == c;
      var pos := i + 1;
      KeptIff(s, a, f, pos, c);
      assert a[..pos][pos - 1] == c;
      RollbackExact(s, a, f, pos);
      if v.AsWritten? {
        if pos == |a| {
          LastMovesNothing(s, a, f);
        } else {
          WrittenUnsound(s, a, f, pos);
          assert s.current != Some(c);
        }
      }
    }
  }

  lemma NotKept(s: State, a: seq<nat>, f: seq<nat>, c: nat)
    requires Listed(s, a, f) && c in f
    ensures !Kept(s, c, c) && s.current != Some(c)
  {
    if Kept(s, c, c) {
      var b, g, k :| Listed(s, b, g) && 0 < k <= |b| && b[k - 1] == c && c in b[..k];
      ListedUnique(s, a, f, b, g);
    }
  }

  // ------------------------------------------------------------------- runs

  /** A step keeps memory sound exactly if it is safe, and a safe one keeps the invariant. */
  lemma StepSoundIff(v: Variant, s: State, op: Op)
    requires Closed(s) && MemoryInv(s) && Allowed(s, op)
    ensures if Safe(v, s, op) then MemoryInv(Step(v, s, op)) else !SoundMemory(Step(v, s, op))
  {
    match op
    case Allocate(size, backend, newId) =>
      if Safe(v, s, op) {
        AllocateSound(v, s, size, backend, newId);
      } else {
        ForgottenUnsound(s);
      }
    case Snap => SnapSound(s);
    case Commit => CommitSound(s);
    case Reset => ResetSound(s);
    case Rollback =>
      if s.snapshots[|s.snapshots| - 1].chunk.None? {
        CommitSound(s);
        ResetSound(CommitStep(s));
        assert SnapshotMemory(s.chunks, s.snapshots[|s.snapshots| - 1]);
        assert RollbackStep(v, s) == ResetStep(CommitStep(s));
      } else {
        RollbackSoundIff(v, s);
      }
  }

  ghost predicate SafeRun(v: Variant, s: State, ops: seq<Op>)
    requires Closed(s) && AllowedRun(v, s, ops)
    decreases |ops|
  {
    ops == [] || (Safe(v, s, ops[0]) && SafeRun(v, Step(v, s, ops[0]), ops[1..]))
  }

  /** Memory is sound before, between and after the steps. */
  ghost predicate SoundThroughout(v: Variant, s: State, ops: seq<Op>)
    requires Closed(s) && AllowedRun(v, s, ops)
    decreases |ops|
  {
    SoundMemory(s) && (ops == [] || SoundThroughout(v, Step(v, s, ops[0]), ops[1..]))
  }

  /** Memory is sound at every point of a run exactly if the run is safe, as written and as intended. */
  lemma {:induction false} SoundThroughoutIff(v: Variant, s: State, ops: seq<Op>)
    requires Closed(s) && MemoryInv(s) && AllowedRun(v, s, ops)
    ensures SoundThroughout(v, s, ops) <==> SafeRun(v, s, ops)
    decreases |ops|
  {
    if ops != [] {
      StepSoundIff(v, s, ops[0]);
      if Safe(v, s, ops[0]) {
        SoundThroughoutIff(v, Step(v, s, ops[0]), ops[1..]);
      } else {
        UnsoundAtOnce(v, s, ops);
      }
    }
  }

  lemma UnsoundAtOnce(v: Variant, s: State, ops: seq<Op>)
    requires Closed(s) && AllowedRun(v, s, ops) && ops != [] && !SoundMemory(Step(v, s, ops[0]))
    ensures !SoundThroughout(v, s, ops)
  {
    assert !SoundThroughout(v, Step(v, s, ops[0]), ops[1..]);
  }

  // ------------------------------------------------------------- beginnings

  lemma InvIsMemoryInv(s: State)
    requires Closed(s) && Inv(s)
    ensures MemoryInv(s)
  {
    InvIsSound(s);
    var v :| Good(s, v);
    FactsMemory(s.chunks, v.a, v.f, v.live, v.saved);
    forall i | 0 <= i < |s.snapshots| ensures SnapshotMemory(s.chunks, s.snapshots[i]) {
      SavedMemory(s, v, i);
    }
  }

  lemma SavedIsOk(m: Chunks, a: seq<nat>, f: seq<nat>, live: seq<Allocation>, snaps: seq<Saved>, i: nat)
    requires Facts(m, a, f, live, snaps) && i < |snaps|
    ensures SavedOk(m, a, snaps[i], live)
  {
    assert Open(ARENA, 0);
  }

  lemma SavedMemory(s: State, v: View, i: nat)
    requires Good(s, v) && i < |s.snapshots|
    ensures SnapshotMemory(s.chunks, s.snapshots[i])
  {
    var saved, top := v.saved[i], s.snapshots[i];
    SavedIsOk(s.chunks, v.a, v.f, v.live, v.saved, i);
    assert top == Taken(v.a, saved);
    forall j | 0 <= j < |top.live|
      ensures top.live[j].chunk in s.chunks && saved.pos > 0
      ensures top.chunk == Some(top.live[j].chunk) ==> Ends(s.chunks, top.live[j], top.used)
    {
      SavedSlot(s, v, i, j);
    }
    assert top.live == [] || top.live[0].chunk in s.chunks;
    forall j, k | 0 <= j < k < |top.live| ensures NoOverlap(s.chunks, top.live[j], top.live[k]) {
      assert saved.live[j] == v.live[j] && saved.live[k] == v.live[k];
      AllocationsDisjoint(s.chunks, v.a, v.f, v.live, v.saved, j, k);
    }
  }

  lemma SavedSlot(s: State, v: View, i: nat, j: nat)
    requires Good(s, v) && i < |v.saved| && v.saved[i].pos <= |v.a|
    requires v.saved[i].live <= v.live && j < |v.saved[i].live|
    requires Before(v.saved[i].live[j], v.saved[i].pos, v.saved[i].used)
    ensures var x := Place(v.a, v.saved[i].live[j]);
            x.chunk in s.chunks && v.saved[i].pos > 0 &&
            (Some(x.chunk) == At(v.a, v.saved[i].pos - 1) ==> Ends(s.chunks, x, v.saved[i].used))
  {
    assert v.saved[i].live[j] == v.live[j];
    AllocationInside(s.chunks, v.a, v.f, v.live, v.saved, j);
  }

  /**
   While every open snapshot is in place, a step is safe exactly if it is careful or a
   reset; as intended, every step is.
   */
  lemma SafeUnderInv(v: Variant, s: State, op: Op)
    requires Closed(s) && Inv(s) && Allowed(s, op)
    ensures Safe(v, s, op) <==> v.AsIntended? || op.Reset? || Careful(s, op)
  {
    InvIsMemoryInv(s);
    StepSoundIff(v, s, op);
    if v.AsIntended? && !op.Reset? {
      IntendedKeeps(s, op);
      InvIsSound(Step(v, s, op));
    } else if Careful(s, op) {
      StepExact(s, op);
      InvIsSound(Step(v, s, op));
    }
  }

  /** What is known of every run of a new arena. */
  lemma FromStart(v: Variant, chunkSize: nat, ops: seq<Op>)
    requires AllowedRun(v, Start(chunkSize), ops)
    ensures SoundThroughout(v, Start(chunkSize), ops) <==> SafeRun(v, Start(chunkSize), ops)
    ensures InvThroughout(v, Start(chunkSize), ops) <==>
            if v.AsWritten? then CarefulRun(Start(chunkSize), ops) else OrderlyRun(v, Start(chunkSize), ops)
  {
    StartIsInv(chunkSize);
    InvIsMemoryInv(Start(chunkSize));
    SoundThroughoutIff(v, Start(chunkSize), ops);
    if v.AsWritten? {
      WrittenRun(Start(chunkSize), ops);
    } else {
      IntendedRun(Start(chunkSize), ops);
    }
  }

  /** A reset under a snapshot of a chunk is not careful, and does no harm by itself. */
  lemma ResetUnderSnapshot(s: State)
    requires Closed(s) && Inv(s) && s.current.Some?
    ensures var ops := [Snap, Reset];
            AllowedRun(AsWritten, s, ops) && !CarefulRun(s, ops) && SafeRun(AsWritten, s, ops)
  {
    var ops := [Snap, Reset];
    assert ops[1..] == [Reset] && ops[1..][1..] == [];
    var t := Step(AsWritten, s, Snap);
    assert t.snapshots[|s.snapshots|].chunk == s.current;
    assert AllowedRun(AsWritten, Step(AsWritten, t, Reset), []);
    assert AllowedRun(AsWritten, t, [Reset]);
    assert !Careful(t, Reset);
    assert !CarefulRun(t, [Reset]);
    assert SafeRun(AsWritten, t, [Reset]);
  }
}
