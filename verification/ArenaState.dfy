/**
 What an arena's chunks, live allocations and pending snapshots have to do with each
 other, apart from the links of the chunk lists.
 */
module ArenaState {
  import opened ChunkList
  import opened Folding

  const ALIGNMENT: nat := 16

  /** An allocation: which active chunk it is in, and the slot it was given there. */
  datatype Allocation = Allocation(index: nat, from: nat, size: nat)

  /** What a pending snapshot must give back. */
  datatype Saved = Saved(pos: nat, used: nat, live: seq<Allocation>)

  function SlotEnd(x: Allocation): nat {
    x.from + x.size + ALIGNMENT
  }

  function AlignUp16(x: nat): (y: nat)
    ensures y % ALIGNMENT == 0 && x <= y < x + ALIGNMENT
  {
    (x + (ALIGNMENT - 1)) / ALIGNMENT * ALIGNMENT
  }

  predicate SlotsApart(x: Allocation, y: Allocation) {
    x.index != y.index || SlotEnd(x) <= y.from || SlotEnd(y) <= x.from
  }

  predicate InChunk(m: Chunks, a: seq<nat>, x: Allocation) {
    x.index < |a| && a[x.index] in m && SlotEnd(x) <= m[a[x.index]].used
  }

  ghost predicate Contents(m: Chunks, a: seq<nat>, live: seq<Allocation>) {
    (forall i :: 0 <= i < |live| ==> InChunk(m, a, live[i])) &&
    (forall i, j :: 0 <= i < j < |live| ==> SlotsApart(live[i], live[j]))
  }

  predicate Before(x: Allocation, pos: nat, used: nat) {
    x.index < pos && (x.index == pos - 1 ==> SlotEnd(x) <= used)
  }

  ghost predicate SavedOk(m: Chunks, a: seq<nat>, s: Saved, live: seq<Allocation>) {
    s.pos <= |a| && s.live <= live && (forall i :: 0 <= i < |s.live| ==> Before(s.live[i], s.pos, s.used)) &&
    (s.pos > 0 ==> a[s.pos - 1] in m && s.used <= m[a[s.pos - 1]].used)
  }

  predicate Nested(s: Saved, t: Saved) {
    s.pos <= t.pos && s.live <= t.live && (0 < s.pos == t.pos ==> s.used <= t.used)
  }

  ghost predicate StackOk(m: Chunks, a: seq<nat>, snaps: seq<Saved>, live: seq<Allocation>) {
    (forall i :: 0 <= i < |snaps| ==> SavedOk(m, a, snaps[i], live)) &&
    (forall i, j :: 0 <= i < j < |snaps| ==> Nested(snaps[i], snaps[j]))
  }

  predicate ApartFrom(addr: nat, total: nat, c: Chunk) {
    addr + total <= c.addr || c.addr + c.total <= addr
  }

  ghost predicate MemoryOk(m: Chunks) {
    (forall c :: c in m ==> m[c].used <= m[c].total) &&
    (forall c, d :: c in m && d in m && c != d ==> ApartFrom(m[c].addr, m[c].total, m[d]))
  }

  /** Each chunk is in exactly one of the two lists. */
  ghost predicate Partition(m: Chunks, a: seq<nat>, f: seq<nat>) {
    (forall c :: c in m <==> c in a || c in f) && (forall c :: c in a ==> c !in f)
  }

  ghost predicate Facts(m: Chunks, a: seq<nat>, f: seq<nat>, live: seq<Allocation>, snaps: seq<Saved>) {
    forall key :: Open(ARENA, key) ==> FactsOpen(m, a, f, live, snaps)
  }

  ghost predicate FactsOpen(m: Chunks, a: seq<nat>, f: seq<nat>, live: seq<Allocation>, snaps: seq<Saved>) {
    Partition(m, a, f) && MemoryOk(m) && Contents(m, a, live) && StackOk(m, a, snaps, live)
  }

  /** The address handed out for an allocation. */
  function Pointer(m: Chunks, a: seq<nat>, x: Allocation): nat
    requires InChunk(m, a, x)
  {
    AlignUp16(m[a[x.index]].addr + x.from)
  }

  /** A live allocation is aligned and lies inside the used part of its chunk. */
  lemma AllocationInside(m: Chunks, a: seq<nat>, f: seq<nat>, live: seq<Allocation>, snaps: seq<Saved>, i: nat)
    requires Facts(m, a, f, live, snaps) && i < |live|
    ensures InChunk(m, a, live[i])
    ensures var p := Pointer(m, a, live[i]);
            var c := m[a[live[i].index]];
            p % ALIGNMENT == 0 && c.addr <= p && p + live[i].size <= c.addr + c.used <= c.addr + c.total
  {
    assert Open(ARENA, 0);
    assert InChunk(m, a, live[i]);
  }

  /** The bytes of two live allocations never overlap. */
  lemma AllocationsDisjoint(m: Chunks, a: seq<nat>, f: seq<nat>, live: seq<Allocation>, snaps: seq<Saved>, i: nat,
                            j: nat)
    requires Facts(m, a, f, live, snaps) && Distinct(a) && i < j < |live|
    ensures InChunk(m, a, live[i]) && InChunk(m, a, live[j])
    ensures var p, q := Pointer(m, a, live[i]), Pointer(m, a, live[j]);
            p + live[i].size <= q || q + live[j].size <= p
  {
    AllocationInside(m, a, f, live, snaps, i);
    AllocationInside(m, a, f, live, snaps, j);
    assert Open(ARENA, 0);
    assert SlotsApart(live[i], live[j]);
    if live[i].index != live[j].index {
      assert a[live[i].index] != a[live[j].index];
      assert ApartFrom(m[a[live[i].index]].addr, m[a[live[i].index]].total, m[a[live[j].index]]);
    }
  }

  // ---------------------------------------------------------- transitions

  /** The same chunks with the same memory and use, whatever their links. */
  ghost predicate SameData(m: Chunks, n: Chunks, c: nat) {
    c in m && c in n && n[c].addr == m[c].addr && n[c].total == m[c].total && n[c].used == m[c].used
  }

  /** A chunk with nothing in it joins the active chunks. */
  lemma ChunkJoins(m: Chunks, n: Chunks, a: seq<nat>, f: seq<nat>, f2: seq<nat>, c: nat, live: seq<Allocation>,
                   snaps: seq<Saved>)
    requires Facts(m, a, f, live, snaps)
    requires c !in a && c in n && n[c].used == 0 && forall d :: d in n <==> d in m || d == c
    requires forall d :: d in m && d != c ==> SameData(m, n, d)
    requires if c in m then n[c].addr == m[c].addr && n[c].total == m[c].total
             else forall d :: d in m ==> ApartFrom(n[c].addr, n[c].total, m[d])
    requires forall d :: d in f2 <==> d in f && d != c
    ensures Facts(n, a + [c], f2, live, snaps)
  {
    assert Open(ARENA, 0);
    JoinMemory(m, n, c);
    JoinPartition(m, n, a, f, f2, c);
    forall i | 0 <= i < |live| ensures InChunk(n, a + [c], live[i]) {
      assert InChunk(m, a, live[i]);
    }
    forall i | 0 <= i < |snaps| ensures SavedOk(n, a + [c], snaps[i], live) {
      assert SavedOk(m, a, snaps[i], live);
    }
  }

  lemma JoinMemory(m: Chunks, n: Chunks, c: nat)
    requires MemoryOk(m) && c in n && n[c].used == 0 && forall d :: d in n <==> d in m || d == c
    requires forall d :: d in m && d != c ==> SameData(m, n, d)
    requires if c in m then n[c].addr == m[c].addr && n[c].total == m[c].total
             else forall d :: d in m ==> ApartFrom(n[c].addr, n[c].total, m[d])
    ensures MemoryOk(n)
  {
  }

  lemma JoinPartition(m: Chunks, n: Chunks, a: seq<nat>, f: seq<nat>, f2: seq<nat>, c: nat)
    requires Partition(m, a, f) && c !in a && forall d :: d in n <==> d in m || d == c
    requires forall d :: d in f2 <==> d in f && d != c
    ensures Partition(n, a + [c], f2)
  {
  }

  /** A slot at the end of what the last active chunk has in use. */
  lemma SlotTaken(m: Chunks, n: Chunks, a: seq<nat>, f: seq<nat>, live: seq<Allocation>, snaps: seq<Saved>, size: nat)
    requires Facts(m, a, f, live, snaps) && Distinct(a) && a != [] && a[|a| - 1] in m
    requires var c := a[|a| - 1];
             m[c].used + size + ALIGNMENT <= m[c].total && n == m[c := m[c].(used := m[c].used + size + ALIGNMENT)]
    ensures Facts(n, a, f, live + [Allocation(|a| - 1, m[a[|a| - 1]].used, size)], snaps)
  {
    assert Open(ARENA, 0);
    var c := a[|a| - 1];
    var x := Allocation(|a| - 1, m[c].used, size);
    forall i | 0 <= i < |live| ensures InChunk(n, a, live[i]) && SlotsApart(live[i], x) {
      assert InChunk(m, a, live[i]);
    }
    forall i | 0 <= i < |snaps| ensures SavedOk(n, a, snaps[i], live + [x]) {
      assert SavedOk(m, a, snaps[i], live);
    }
    forall d, e | d in n && e in n && d != e ensures ApartFrom(n[d].addr, n[d].total, n[e]) {
      assert ApartFrom(m[d].addr, m[d].total, m[e]);
    }
  }

  /** A snapshot of the current state goes on top of the stack. */
  lemma SnapshotTaken(m: Chunks, a: seq<nat>, f: seq<nat>, live: seq<Allocation>, snaps: seq<Saved>)
    requires Facts(m, a, f, live, snaps)
    ensures a != [] ==> a[|a| - 1] in m
    ensures Facts(m, a, f, live, snaps + [Saved(|a|, if a == [] then 0 else m[a[|a| - 1]].used, live)])
  {
    assert Open(ARENA, 0);
    assert a != [] ==> a[|a| - 1] in a;
    var s := Saved(|a|, if a == [] then 0 else m[a[|a| - 1]].used, live);
    forall i | 0 <= i < |live| ensures Before(live[i], s.pos, s.used) {
      assert InChunk(m, a, live[i]);
    }
    forall i | 0 <= i < |snaps| ensures Nested(snaps[i], s) {
      assert SavedOk(m, a, snaps[i], live);
    }
  }

  /** Dropping the topmost snapshot. */
  lemma SnapshotDropped(m: Chunks, a: seq<nat>, f: seq<nat>, live: seq<Allocation>, snaps: seq<Saved>)
    requires Facts(m, a, f, live, snaps) && snaps != []
    ensures Facts(m, a, f, live, snaps[..|snaps| - 1])
  {
  }

  lemma TopSnapshot(m: Chunks, a: seq<nat>, f: seq<nat>, live: seq<Allocation>, snaps: seq<Saved>)
    requires Facts(m, a, f, live, snaps) && snaps != []
    ensures SavedOk(m, a, snaps[|snaps| - 1], live)
  {
    assert Open(ARENA, 0);
  }

  /**
   Going back to the topmost snapshot: the chunks after its chunk become free, its chunk
   gets its use back, and what is live is what was live then.
   */
  lemma RolledBack(m: Chunks, n: Chunks, a: seq<nat>, f: seq<nat>, live: seq<Allocation>, snaps: seq<Saved>)
    requires Facts(m, a, f, live, snaps) && snaps != [] && Distinct(a) && n.Keys == m.Keys
    requires var s := snaps[|snaps| - 1];
             s.pos <= |a| && forall c :: c in m ==>
               n[c].addr == m[c].addr && n[c].total == m[c].total &&
               n[c].used == if s.pos > 0 && c == a[s.pos - 1] then s.used else m[c].used
    ensures var s := snaps[|snaps| - 1];
            Facts(n, a[..s.pos], f + a[s.pos..], s.live, snaps[..|snaps| - 1])
  {
    assert Open(ARENA, 0);
    var s := snaps[|snaps| - 1];
    assert SavedOk(m, a, s, live);
    BackMemory(m, n, s, a);
    BackPartition(m, n, a, f, s.pos);
    BackContents(m, n, a, live, s);
    BackStack(m, n, a, live, snaps);
  }

  /** Use is as it was at the snapshot. */
  ghost predicate BackTo(m: Chunks, n: Chunks, a: seq<nat>, s: Saved) {
    n.Keys == m.Keys && s.pos <= |a| &&
    forall c :: c in m ==> n[c].used == if s.pos > 0 && c == a[s.pos - 1] then s.used else m[c].used
  }

  lemma BackPartition(m: Chunks, n: Chunks, a: seq<nat>, f: seq<nat>, pos: nat)
    requires Partition(m, a, f) && n.Keys == m.Keys && pos <= |a| && Distinct(a)
    ensures Partition(n, a[..pos], f + a[pos..])
  {
  }

  lemma BackContents(m: Chunks, n: Chunks, a: seq<nat>, live: seq<Allocation>, s: Saved)
    requires Contents(m, a, live) && SavedOk(m, a, s, live) && BackTo(m, n, a, s) && Distinct(a)
    ensures Contents(n, a[..s.pos], s.live)
  {
  }

  lemma BackStack(m: Chunks, n: Chunks, a: seq<nat>, live: seq<Allocation>, snaps: seq<Saved>)
    requires snaps != [] && StackOk(m, a, snaps, live) && BackTo(m, n, a, snaps[|snaps| - 1]) && Distinct(a)
    ensures StackOk(n, a[..snaps[|snaps| - 1].pos], snaps[..|snaps| - 1], snaps[|snaps| - 1].live)
  {
  }

  lemma BackMemory(m: Chunks, n: Chunks, s: Saved, a: seq<nat>)
    requires MemoryOk(m) && n.Keys == m.Keys && s.pos <= |a|
    requires s.pos > 0 ==> a[s.pos - 1] in m && s.used <= m[a[s.pos - 1]].used
    requires forall c :: c in m ==>
               n[c].addr == m[c].addr && n[c].total == m[c].total &&
               n[c].used == if s.pos > 0 && c == a[s.pos - 1] then s.used else m[c].used
    ensures MemoryOk(n)
  {
  }
}
