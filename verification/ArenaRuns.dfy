/**
 Whole runs of the arena: what every step keeps, as intended and as written, and what
 the steps that go wrong lead to.
 */
module ArenaRuns {
  import opened ChunkList
  import opened ArenaState
  import opened ArenaSteps
  import opened Folding

  /** The chunks of the two lists in order, the live allocations by place, and the open snapshots. */
  datatype View = View(a: seq<nat>, f: seq<nat>, live: seq<Allocation>, saved: seq<Saved>)

  function Place(a: seq<nat>, x: Allocation): Placed {
    Placed(if x.index < |a| then a[x.index] else 0, x.from, x.size)
  }

  function Placement(a: seq<nat>, live: seq<Allocation>): (r: seq<Placed>)
    ensures |r| == |live| && forall i :: 0 <= i < |r| ==> r[i] == Place(a, live[i])
  {
    seq(|live|, i requires 0 <= i < |live| => Place(a, live[i]))
  }

  function Taken(a: seq<nat>, saved: Saved): Snapshot {
    Snapshot(At(a, saved.pos - 1), saved.used, Placement(a, saved.live))
  }

  ghost predicate Apart(a: seq<nat>, f: seq<nat>) {
    Distinct(a) && Distinct(f) && forall i :: 0 <= i < |f| ==> f[i] !in a
  }

  /** The two chunk lists spell a and f, and the current chunk is the last active one. */
  ghost predicate Listed(s: State, a: seq<nat>, f: seq<nat>) {
    Apart(a, f) && Chain(s.chunks, s.active, a) && Chain(s.chunks, s.free, f) && s.current == At(a, |a| - 1)
  }

  ghost predicate Snapshots(snapshots: seq<Snapshot>, a: seq<nat>, saved: seq<Saved>) {
    |snapshots| == |saved| && forall i :: 0 <= i < |saved| ==> snapshots[i] == Taken(a, saved[i])
  }

  ghost predicate Good(s: State, v: View) {
    Facts(s.chunks, v.a, v.f, v.live, v.saved) && Listed(s, v.a, v.f) && s.live == Placement(v.a, v.live) &&
    Snapshots(s.snapshots, v.a, v.saved)
  }

  ghost predicate Inv(s: State) {
    exists v :: Good(s, v)
  }

  /** The free chunk at place k has been taken out of the list and emptied. */
  ghost predicate Reclaimed(m: Chunks, n: Chunks, f: seq<nat>, f2: seq<nat>, k: nat, c: nat, minimumSize: nat) {
    k < |f| && f[k] == c && f2 == Drop(f, k) && n.Keys == m.Keys && c in m && c in n &&
    n[c].used == 0 && n[c].addr == m[c].addr && n[c].total == m[c].total >= minimumSize && n[c].next == None &&
    forall d :: d in m && d != c ==> SameData(m, n, d)
  }

  /** Everything that is needed for c to become an active chunk. */
  ghost predicate ReadyToJoin(m: Chunks, n: Chunks, a: seq<nat>, f: seq<nat>, f2: seq<nat>, live: seq<Allocation>,
                              snaps: seq<Saved>,
                              c: nat) {
    Facts(m, a, f, live, snaps) && c !in a && c !in f2 && c in n && n[c].used == 0 && n[c].next == None &&
    (forall d :: d in n <==> d in m || d == c) && (forall d :: d in m && d != c ==> SameData(m, n, d)) &&
    (if c in m then n[c].addr == m[c].addr && n[c].total == m[c].total
     else forall d :: d in m ==> ApartFrom(n[c].addr, n[c].total, m[d])) &&
    (forall d :: d in f2 <==> d in f && d != c) &&
    Distinct(a) && Distinct(f2) && (forall i :: 0 <= i < |f2| ==> f2[i] !in a)
  }

  lemma ListedChunks(m: Chunks, a: seq<nat>, f: seq<nat>, live: seq<Allocation>, snaps: seq<Saved>)
    requires Facts(m, a, f, live, snaps)
    ensures Partition(m, a, f)
  {
    assert Open(ARENA, 0);
  }

  /** Emptying the free chunk at place k and taking it out of its list. */
  lemma TakenFree(m: Chunks, active: List, a: seq<nat>, free: List, f: seq<nat>, k: nat, minimumSize: nat)
    requires Chain(m, active, a) && Chain(m, free, f) && Distinct(f) && (forall i :: 0 <= i < |f| ==> f[i] !in a)
    requires k < |f| && f[k] in m && minimumSize <= m[f[k]].total
    ensures var emptied := m[f[k] := m[f[k]].(used := 0)];
            Removable(emptied, f[k]) &&
            var r := Remove(emptied, free, f[k]);
            Chain(r.0, active, a) && Chain(r.0, r.1, Drop(f, k)) &&
              Reclaimed(m, r.0, f, Drop(f, k), k, f[k], minimumSize)
  {
    var emptied := m[f[k] := m[f[k]].(used := 0)];
    ChainSame(m, emptied, free, f);
    ChainSame(m, emptied, active, a);
    RemoveReady(emptied, free, f, k);
    RemoveChain(emptied, free, f, k);
    RemoveElsewhere(emptied, free, f, k, a);
    ChainSame(emptied, Remove(emptied, free, f[k]).0, active, a);
  }

  lemma FreshChunk(m: Chunks, n: Chunks, active: List, a: seq<nat>, free: List, f: seq<nat>, live: seq<Allocation>,
                   snaps: seq<Saved>,
                   c: nat)
    requires Facts(m, a, f, live, snaps) && Chain(m, active, a) && Chain(m, free, f) && c !in m
    requires Distinct(a) && Distinct(f) && forall i :: 0 <= i < |f| ==> f[i] !in a
    requires c in n && n == m[c := n[c]] && n[c].used == 0 && n[c].next == None
    requires forall d :: d in m ==> ApartFrom(n[c].addr, n[c].total, m[d])
    ensures ReadyToJoin(m, n, a, f, f, live, snaps, c) && Chain(n, active, a) && Chain(n, free, f)
  {
    ListedChunks(m, a, f, live, snaps);
    ChainSame(m, n, active, a);
    ChainSame(m, n, free, f);
  }

  lemma ReclaimedChunk(m: Chunks, n: Chunks, a: seq<nat>, f: seq<nat>, f2: seq<nat>, live: seq<Allocation>,
                       snaps: seq<Saved>, c: nat,
                       minimumSize: nat)
    requires Facts(m, a, f, live, snaps) && Distinct(a) && Distinct(f) && forall i :: 0 <= i < |f| ==> f[i] !in a
    requires exists k :: 0 <= k < |f| && Reclaimed(m, n, f, f2, k, c, minimumSize)
    ensures ReadyToJoin(m, n, a, f, f2, live, snaps, c) && minimumSize <= n[c].total
  {
  }

  lemma JoinLinked(m: Chunks, n: Chunks, n2: Chunks, a: seq<nat>, f: seq<nat>, f2: seq<nat>, live: seq<Allocation>,
                   snaps: seq<Saved>,
                   c: nat, active: List)
    requires ReadyToJoin(m, n, a, f, f2, live, snaps, c)
    requires (active.last.Some? ==> active.last.value in n) && n2 == Insert(n, active, c).0
    ensures Facts(n2, a + [c], f2, live, snaps) && n2[c].used == 0 && n2[c].total == n[c].total
  {
    ChunkJoins(m, n2, a, f, f2, c, live, snaps);
  }

  /** A snapshot taken without a chunk has nothing to give back. */
  lemma NothingSaved(m: Chunks, a: seq<nat>, saved: Saved, live: seq<Allocation>)
    requires SavedOk(m, a, saved, live) && saved.pos == 0
    ensures saved.live == []
  {
    assert saved.live == [] || !Before(saved.live[0], saved.pos, saved.used);
  }

  lemma ResetFacts(m: Chunks, n: Chunks, a: seq<nat>, f: seq<nat>, live: seq<Allocation>, snaps: seq<Saved>)
    requires Facts(m, a, f, live, snaps) && SameContents(m, n) && forall i :: 0 <= i < |snaps| ==> snaps[i].pos == 0
    ensures Facts(n, [], f + a, [], snaps)
    ensures forall i :: 0 <= i < |snaps| ==> snaps[i].live == []
  {
    assert Open(ARENA, 0);
    forall i | 0 <= i < |snaps| ensures snaps[i].live == [] && SavedOk(n, [], snaps[i], []) {
      NothingSaved(m, a, snaps[i], live);
    }
  }

  lemma AfterRollback(m: Chunks, n: Chunks, a: seq<nat>, f: seq<nat>, live: seq<Allocation>, snaps: seq<Saved>,
                      a2: seq<nat>, f2: seq<nat>)
    requires Facts(m, a, f, live, snaps) && snaps != [] && Distinct(a) && Distinct(f) && forall i :: 0 <= i < |f| ==>
             f[i] !in a
    requires var s := snaps[|snaps| - 1];
             n.Keys == m.Keys && s.pos <= |a| && a2 == a[..s.pos] && f2 == f + a[s.pos..] && forall c :: c in m ==>
               n[c].addr == m[c].addr && n[c].total == m[c].total &&
               n[c].used == if s.pos > 0 && c == a[s.pos - 1] then s.used else m[c].used
    ensures Facts(n, a2, f2, snaps[|snaps| - 1].live, snaps[..|snaps| - 1])
    ensures Distinct(a2) && Distinct(f2) && forall i :: 0 <= i < |f2| ==> f2[i] !in a2
  {
    RolledBack(m, n, a, f, live, snaps);
  }

  // ----------------------------------------------------- what steps keep

  /** Where an allocation or a snapshot is does not depend on the chunks behind it. */
  lemma SamePlacement(m: Chunks, a: seq<nat>, b: seq<nat>, live: seq<Allocation>)
    requires a <= b && forall i :: 0 <= i < |live| ==> live[i].index < |a|
    ensures Placement(a, live) == Placement(b, live)
  {
  }

  lemma SnapKeeps(s: State, v: View)
    requires Closed(s) && Good(s, v)
    ensures var used := if v.a == [] || v.a[|v.a| - 1] !in s.chunks then 0 else s.chunks[v.a[|v.a| - 1]].used;
            Good(SnapStep(s), v.(saved := v.saved + [Saved(|v.a|, used, v.live)]))
  {
    SnapshotTaken(s.chunks, v.a, v.f, v.live, v.saved);
  }

  lemma CommitKeeps(s: State, v: View)
    requires Closed(s) && Good(s, v) && s.snapshots != []
    ensures Good(CommitStep(s), v.(saved := v.saved[..|v.saved| - 1]))
  {
    SnapshotDropped(s.chunks, v.a, v.f, v.live, v.saved);
  }

  lemma TakeSlotKeeps(s: State, v: View, size: nat)
    requires Closed(s) && Good(s, v) && Fits(s, size + ALIGNMENT)
    ensures Good(TakeSlot(s, size), v.(live := v.live + [Allocation(|v.a| - 1, s.chunks[s.current.value].used, size)]))
  {
    var t := TakeSlot(s, size);
    SlotTaken(s.chunks, t.chunks, v.a, v.f, v.live, v.saved, size);
    ChainSame(s.chunks, t.chunks, s.active, v.a);
    ChainSame(s.chunks, t.chunks, s.free, v.f);
  }

  /** The chunk to reclaim is one of the free ones. */
  lemma {:induction false} ReclaimsFree(m: Chunks, l: List, f: seq<nat>, k: nat, minimumSize: nat, fuel: nat)
    returns (j: nat)
    requires Chain(m, l, f) && k <= |f| && Reclaimable(m, At(f, k - 1), minimumSize, fuel).Some?
    ensures j < |f| && f[j] == Reclaimable(m, At(f, k - 1), minimumSize, fuel).value
    decreases fuel
  {
    ChainMember(m, l, f, k - 1);
    if m[f[k - 1]].total >= minimumSize {
      j := k - 1;
    } else {
      j := ReclaimsFree(m, l, f, k - 1, minimumSize, fuel - 1);
    }
  }

  lemma LinkKeeps(m: Chunks, t: State, v: View, f2: seq<nat>, c: nat)
    requires Closed(t) && ReadyToJoin(m, t.chunks, v.a, v.f, f2, v.live, v.saved, c)
    requires Chain(t.chunks, t.active, v.a) && Chain(t.chunks, t.free, f2)
    requires t.live == Placement(v.a, v.live) && Snapshots(t.snapshots, v.a, v.saved)
    ensures Good(LinkChunk(t, c), View(v.a + [c], f2, v.live, v.saved))
  {
    InsertChain(t.chunks, t.active, v.a, c);
    InsertElsewhere(t.chunks, t.active, v.a, c, f2);
    var inserted := Insert(t.chunks, t.active, c);
    ChainSame(t.chunks, inserted.0, t.free, f2);
    JoinLinked(m, t.chunks, inserted.0, v.a, v.f, f2, v.live, v.saved, c, t.active);
    GrownPlacement(m, v, v.a + [c]);
  }

  /** Live allocations and snapshots keep their places when a chunk joins the active ones. */
  lemma GrownPlacement(m: Chunks, v: View, b: seq<nat>)
    requires Facts(m, v.a, v.f, v.live, v.saved) && v.a <= b
    ensures Placement(b, v.live) == Placement(v.a, v.live)
    ensures forall i :: 0 <= i < |v.saved| ==> Taken(b, v.saved[i]) == Taken(v.a, v.saved[i])
  {
    assert Open(ARENA, 0);
    assert forall i :: 0 <= i < |v.live| ==> InChunk(m, v.a, v.live[i]);
    SamePlacement(m, v.a, b, v.live);
    forall i | 0 <= i < |v.saved| ensures Taken(b, v.saved[i]) == Taken(v.a, v.saved[i]) {
      assert SavedOk(m, v.a, v.saved[i], v.live);
      SamePlacement(m, v.a, b, v.saved[i].live);
    }
  }

  lemma CreateKeeps(s: State, v: View, minimumSize: nat, backend: Option<nat>, newId: nat) returns (f2: seq<nat>)
    requires Closed(s) && Good(s, v) && newId !in s.chunks && !CannotCreate(s, minimumSize, backend)
    requires backend.Some? ==> forall c :: c in s.chunks ==>
             ApartFrom(backend.value, Max(minimumSize, s.base), s.chunks[c])
    ensures var t := Create(s, minimumSize, backend, newId);
            Good(t, View(v.a + [t.current.value], f2, v.live, v.saved))
  {
    var found := FreeChunk(s, minimumSize);
    if found.Some? {
      var k := ReclaimsFree(s.chunks, s.free, v.f, |v.f|, minimumSize, |s.chunks|);
      TakenFree(s.chunks, s.active, v.a, s.free, v.f, k, minimumSize);
      var t := TakeFree(s, found.value);
      assert Reclaimed(s.chunks, t.chunks, v.f, Drop(v.f, k), k, found.value, minimumSize);
      ReclaimedChunk(s.chunks, t.chunks, v.a, v.f, Drop(v.f, k), v.live, v.saved, found.value, minimumSize);
      LinkKeeps(s.chunks, t, v, Drop(v.f, k), found.value);
      f2 := Drop(v.f, k);
    } else {
      var t := NewChunk(s, newId, backend.value, Max(minimumSize, s.base));
      FreshChunk(s.chunks, t.chunks, s.active, v.a, s.free, v.f, v.live, v.saved, newId);
      LinkKeeps(s.chunks, t, v, v.f, newId);
      f2 := v.f;
    }
  }

  lemma AllocateKeeps(s: State, size: nat, backend: Option<nat>, newId: nat)
    requires Closed(s) && Inv(s) && Allowed(s, Allocate(size, backend, newId))
    ensures Inv(AllocateStep(AsIntended, s, size, backend, newId))
  {
    var v :| Good(s, v);
    var n := size + ALIGNMENT;
    if size < SIZE_MAX - ALIGNMENT {
      if Fits(s, n) {
        TakeSlotKeeps(s, v, size);
      } else if !CannotCreate(s, n, backend) {
        var f2 := CreateKeeps(s, v, n, backend, newId);
        var t := Create(s, n, backend, newId);
        TakeSlotKeeps(t, View(v.a + [t.current.value], f2, v.live, v.saved), size);
      }
    }
  }

  predicate Chunkless(snapshots: seq<Snapshot>) {
    forall i :: 0 <= i < |snapshots| ==> snapshots[i].chunk == None
  }

  lemma ChunklessSaved(s: State, v: View)
    requires Good(s, v) && Chunkless(s.snapshots)
    ensures forall i :: 0 <= i < |v.saved| ==> v.saved[i].pos == 0
  {
    assert Open(ARENA, 0);
    forall i | 0 <= i < |v.saved| ensures v.saved[i].pos == 0 {
      assert SavedOk(s.chunks, v.a, v.saved[i], v.live) && s.snapshots[i] == Taken(v.a, v.saved[i]);
    }
  }

  lemma ResetLists(s: State, a: seq<nat>, f: seq<nat>)
    requires Closed(s) && Listed(s, a, f)
    ensures Listed(ResetStep(s), [], f + a) && SameContents(s.chunks, ResetStep(s).chunks)
  {
    AppendChain(s.chunks, s.active, a, s.free, f);
  }

  lemma ResetKeeps(s: State, v: View)
    requires Closed(s) && Good(s, v) && Chunkless(s.snapshots)
    ensures Good(ResetStep(s), View([], v.f + v.a, [], v.saved))
  {
    ChunklessSaved(s, v);
    ResetLists(s, v.a, v.f);
    ResetFacts(s.chunks, ResetStep(s).chunks, v.a, v.f, v.live, v.saved);
    forall i | 0 <= i < |v.saved| ensures Taken([], v.saved[i]) == Taken(v.a, v.saved[i]) {
      assert v.saved[i].live == [];
    }
  }

  /** The lists of a rollback, as intended: the kept chunks, and behind the free ones the chunks taken since. */
  lemma MoveTailKeeps(s: State, a: seq<nat>, f: seq<nat>, pos: nat)
    requires Closed(s) && Listed(s, a, f) && 0 < pos <= |a| && a[pos - 1] in s.chunks
    ensures var t := MoveTail(AsIntended, s, a[pos - 1]);
            Chain(t.chunks, t.active, a[..pos]) && Chain(t.chunks, t.free, f + a[pos..]) &&
              SameContents(s.chunks, t.chunks)
  {
    ChainMember(s.chunks, s.active, a, pos - 1);
    var keep, moved := a[..pos], a[pos..];
    assert a == keep + moved;
    if moved == [] {
      assert keep == a && f + moved == f;
    } else {
      TransplantReady(s.chunks, s.active, keep, moved, s.free, f);
      TransplantLinks(s.chunks, s.active, keep, moved, s.free, f);
      TransplantCloses(s.chunks, s.active, s.free, moved[0]);
    }
  }

  lemma RollbackKeeps(s: State, v: View)
    requires Closed(s) && Good(s, v) && s.snapshots != []
    ensures Inv(RollbackStep(AsIntended, s))
  {
    var below, top := CommitStep(s), v.saved[|v.saved| - 1];
    TopSnapshot(s.chunks, v.a, v.f, v.live, v.saved);
    assert s.snapshots[|s.snapshots| - 1] == Taken(v.a, top);
    CommitKeeps(s, v);
    if top.pos == 0 {
      ChunklessBelow(s, v);
      ResetKeeps(below, v.(saved := v.saved[..|v.saved| - 1]));
      assert RollbackStep(AsIntended, s) == ResetStep(below);
    } else {
      RollbackToChunk(s, v);
    }
  }

  lemma ChunklessBelow(s: State, v: View)
    requires Closed(s) && Good(s, v) && s.snapshots != [] && v.saved[|v.saved| - 1].pos == 0
    ensures Chunkless(CommitStep(s).snapshots) && v.saved[|v.saved| - 1].live == []
  {
    assert Open(ARENA, 0);
    var top := v.saved[|v.saved| - 1];
    NothingSaved(s.chunks, v.a, top, v.live);
    forall i | 0 <= i < |v.saved| - 1 ensures s.snapshots[i].chunk == None {
      assert Nested(v.saved[i], top) && s.snapshots[i] == Taken(v.a, v.saved[i]);
    }
  }

  /** The chunks after a rollback to the pos-th of a, where used was in use. */
  lemma RollbackLists(s: State, a: seq<nat>, f: seq<nat>, pos: nat)
    requires Closed(s) && Listed(s, a, f) && 0 < pos <= |a| && s.snapshots != []
    requires s.snapshots[|s.snapshots| - 1].chunk == Some(a[pos - 1])
    ensures var u := RollbackStep(AsIntended, s);
            Chain(u.chunks, u.active, a[..pos]) && Chain(u.chunks, u.free, f + a[pos..]) &&
              u.current == Some(a[pos - 1]) &&
            u.chunks.Keys == s.chunks.Keys &&
            forall d :: d in s.chunks ==>
              u.chunks[d].addr == s.chunks[d].addr && u.chunks[d].total == s.chunks[d].total &&
              u.chunks[d].used == if d == a[pos - 1] then s.snapshots[|s.snapshots| - 1].used else s.chunks[d].used
  {
    var below := CommitStep(s);
    MoveTailKeeps(below, a, f, pos);
    var t, u := MoveTail(AsIntended, below, a[pos - 1]), RollbackStep(AsIntended, s);
    ChainSame(t.chunks, u.chunks, u.active, a[..pos]);
    ChainSame(t.chunks, u.chunks, u.free, f + a[pos..]);
  }

  lemma RollbackToChunk(s: State, v: View)
    requires Closed(s) && Good(s, v) && s.snapshots != [] && v.saved[|v.saved| - 1].pos > 0
    ensures Inv(RollbackStep(AsIntended, s))
  {
    var top, saved := v.saved[|v.saved| - 1], v.saved[..|v.saved| - 1];
    TopSnapshot(s.chunks, v.a, v.f, v.live, v.saved);
    assert s.snapshots[|s.snapshots| - 1] == Taken(v.a, top);
    RollbackLists(s, v.a, v.f, top.pos);
    var u := RollbackStep(AsIntended, s);
    var keep, freed := v.a[..top.pos], v.f + v.a[top.pos..];
    AfterRollback(s.chunks, u.chunks, v.a, v.f, v.live, v.saved, keep, freed);
    ShrunkPlacement(s.chunks, v);
    assert Good(u, View(keep, freed, top.live, saved));
  }

  /** What was live at the topmost snapshot and the snapshots below it are where they were. */
  lemma ShrunkPlacement(m: Chunks, v: View)
    requires Facts(m, v.a, v.f, v.live, v.saved) && v.saved != [] && v.saved[|v.saved| - 1].pos <= |v.a|
    ensures var top := v.saved[|v.saved| - 1];
            Placement(v.a[..top.pos], top.live) == Placement(v.a, top.live) &&
            forall i :: 0 <= i < |v.saved| - 1 ==> Taken(v.a[..top.pos], v.saved[i]) == Taken(v.a, v.saved[i])
  {
    assert Open(ARENA, 0);
    var top := v.saved[|v.saved| - 1];
    forall i | 0 <= i < |v.saved|
      ensures v.saved[i].pos <= top.pos
      ensures Placement(v.a[..top.pos], v.saved[i].live) == Placement(v.a, v.saved[i].live)
    {
      assert SavedOk(m, v.a, v.saved[i], v.live);
      assert i < |v.saved| - 1 ==> Nested(v.saved[i], top);
      assert forall j :: 0 <= j < |v.saved[i].live| ==> Before(v.saved[i].live[j], v.saved[i].pos, v.saved[i].used);
      SamePlacement(m, v.a[..top.pos], v.a, v.saved[i].live);
    }
  }

  // -------------------------------------------- which steps are safe

  /** A reset may not leave open snapshots that hold a chunk. */
  predicate Orderly(s: State, op: Op) {
    op.Reset? ==> Chunkless(s.snapshots)
  }

  /**
   Besides, no chunk is refused while one is current, and no chunk has been taken since the
   snapshot rolled back to.
   */
  predicate Careful(s: State, op: Op)
    requires Closed(s) && Allowed(s, op)
  {
    match op
    case Allocate(size, backend, newId) => AllocationFails(s, size, backend) ==> s.current.None?
    case Rollback =>
      var top := s.snapshots[|s.snapshots| - 1];
      top.chunk.None? || top.chunk == s.current
    case Reset => Chunkless(s.snapshots)
    case _ => true
  }

  /** As intended, every orderly step keeps the invariant. */
  lemma IntendedKeeps(s: State, op: Op)
    requires Closed(s) && Inv(s) && Allowed(s, op) && Orderly(s, op)
    ensures Inv(Step(AsIntended, s, op))
  {
    var v :| Good(s, v);
    match op
    case Allocate(size, backend, newId) => AllocateKeeps(s, size, backend, newId);
    case Snap => SnapKeeps(s, v);
    case Commit => CommitKeeps(s, v);
    case Rollback => RollbackKeeps(s, v);
    case Reset => ResetKeeps(s, v);
  }

  /** A careful step does what was intended. */
  lemma CarefulAsIntended(s: State, op: Op)
    requires Closed(s) && Inv(s) && Allowed(s, op) && Careful(s, op)
    ensures Step(AsWritten, s, op) == Step(AsIntended, s, op)
  {
    var v :| Good(s, v);
    if op.Rollback? && s.current.Some? {
      ChainMember(s.chunks, s.active, v.a, |v.a| - 1);
    }
  }

  /** The chain from a chunk on is one sequence. */
  lemma {:induction false} OneChain(m: Chunks, a: seq<nat>, b: seq<nat>, k: nat)
    requires ChainOpen(m, a) && ChainOpen(m, b) && a != [] && b != [] && a[0] == b[0] && k < |a|
    ensures k < |b| && a[k] == b[k]
    decreases k
  {
    if k > 0 {
      OneChain(m, a, b, k - 1);
      assert Linked(m, a, k - 1) && Linked(m, b, k - 1);
    }
  }

  lemma SameChain(m: Chunks, a: seq<nat>, b: seq<nat>)
    requires ChainOpen(m, a) && ChainOpen(m, b) && a != [] && b != [] && a[0] == b[0]
    ensures a == b
  {
    OneChain(m, a, b, |a| - 1);
    OneChain(m, b, a, |b| - 1);
    forall k | 0 <= k < |a| ensures a[k] == b[k] {
      OneChain(m, a, b, k);
    }
  }

  /** As written, the active chain of a rollback past taken chunks is right but for its tail. */
  lemma MovedWrong(s: State, a: seq<nat>, f: seq<nat>, pos: nat)
    requires Closed(s) && Listed(s, a, f) && 0 < pos < |a| && a[pos - 1] in s.chunks
    ensures var t := MoveTail(AsWritten, s, a[pos - 1]);
            ChainOpen(t.chunks, a[..pos]) && t.active.first == Some(a[0]) && t.active.last != Some(a[pos - 1])
  {
    var keep, moved := a[..pos], a[pos..];
    assert a == keep + moved;
    TransplantReady(s.chunks, s.active, keep, moved, s.free, f);
    TransplantLinks(s.chunks, s.active, keep, moved, s.free, f);
    TransplantTails(s.chunks, s.active, keep, moved, s.free, f);
    LastApart(a, pos);
  }

  lemma RolledBackWrong(s: State, a: seq<nat>, f: seq<nat>, pos: nat)
    requires Closed(s) && Listed(s, a, f) && 0 < pos < |a| && s.snapshots != []
    requires s.snapshots[|s.snapshots| - 1].chunk == Some(a[pos - 1])
    ensures var t := RollbackStep(AsWritten, s);
            ChainOpen(t.chunks, a[..pos]) && t.active.first == Some(a[0]) && t.active.last != Some(a[pos - 1])
  {
    var below := CommitStep(s);
    MovedWrong(below, a, f, pos);
    KeptChain(MoveTail(AsWritten, below, a[pos - 1]).chunks, RollbackStep(AsWritten, s).chunks, a[..pos]);
  }

  lemma WrongTail(s: State, v: View)
    requires Closed(s) && Good(s, v) && s.snapshots != []
    requires var c := s.snapshots[|s.snapshots| - 1].chunk;
             c.Some? && c != s.current
    ensures !Inv(RollbackStep(AsWritten, s))
  {
    var top, t := v.saved[|v.saved| - 1], RollbackStep(AsWritten, s);
    TopSnapshot(s.chunks, v.a, v.f, v.live, v.saved);
    assert s.snapshots[|s.snapshots| - 1] == Taken(v.a, top);
    RolledBackWrong(s, v.a, v.f, top.pos);
    TailIsLast(t, v.a[..top.pos]);
  }

  lemma LastApart(a: seq<nat>, pos: nat)
    requires Distinct(a) && 0 < pos < |a|
    ensures a[..pos][|a[..pos]| - 1] != a[pos..][|a[pos..]| - 1]
  {
  }

  lemma KeptChain(m: Chunks, n: Chunks, ids: seq<nat>)
    requires ChainOpen(m, ids) && n.Keys == m.Keys
    requires forall c :: c in m ==> n[c].next == m[c].next && n[c].prev == m[c].prev
    ensures ChainOpen(n, ids)
  {
    forall i | 0 <= i < |ids| ensures Linked(n, ids, i) {
      assert Linked(m, ids, i);
    }
  }

  lemma TailIsLast(t: State, keep: seq<nat>)
    requires ChainOpen(t.chunks, keep) && keep != [] && t.active.first == Some(keep[0])
    ensures Inv(t) ==> t.active.last == Some(keep[|keep| - 1])
  {
    if Inv(t) {
      var w :| Good(t, w);
      assert Open(CHAIN, 0);
      SameChain(t.chunks, keep, w.a);
    }
  }

  lemma CurrentIsActive(s: State)
    ensures Inv(s) ==> (s.current.Some? <==> s.active.first.Some?)
  {
  }

  lemma NoActiveChunkless(s: State)
    ensures Inv(s) && s.active.first.None? ==> Chunkless(s.snapshots)
  {
    if Inv(s) && s.active.first.None? {
      var v :| Good(s, v);
      assert Open(ARENA, 0);
      forall i | 0 <= i < |v.saved| ensures s.snapshots[i].chunk == None {
        assert SavedOk(s.chunks, v.a, v.saved[i], v.live) && s.snapshots[i] == Taken(v.a, v.saved[i]);
      }
    }
  }

  /** As written, a step keeps the invariant exactly when it is careful. */
  lemma StepExact(s: State, op: Op)
    requires Closed(s) && Inv(s) && Allowed(s, op)
    ensures Inv(Step(AsWritten, s, op)) <==> Careful(s, op)
  {
    var v :| Good(s, v);
    if Careful(s, op) {
      IntendedKeeps(s, op);
      CarefulAsIntended(s, op);
    } else {
      match op
      case Allocate(size, backend, newId) => CurrentIsActive(s); CurrentIsActive(s.(current := None));
      case Rollback => WrongTail(s, v);
      case Reset => NoActiveChunkless(ResetStep(s));
    }
  }
}
