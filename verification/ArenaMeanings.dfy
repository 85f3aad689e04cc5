/**
 What the arena's operations do, in numbers of bytes: when an allocation is given memory and which,
 what a refusal leaves behind, and what commit and reset keep.
 */
module ArenaMeanings {
  import opened ChunkList
  import opened ArenaState
  import opened ArenaSteps
  import opened ArenaRuns
  import opened ArenaTheorems

  /** The current chunk has n bytes left. */
  predicate HasLeft(s: State, n: nat) {
    s.current.Some? && s.current.value in s.chunks &&
    s.chunks[s.current.value].used + n <= s.chunks[s.current.value].total
  }

  function Bigger(a: nat, b: nat): nat {
    if a >= b then a else b
  }

  /** The i-th chunk of the list holds n bytes. */
  predicate Holds(m: Chunks, f: seq<nat>, i: nat, n: nat)
    requires i < |f|
  {
    f[i] in m && m[f[i]].total >= n
  }

  /** Some chunk of the list holds n bytes. */
  ghost predicate AnyHolds(m: Chunks, f: seq<nat>, n: nat) {
    exists i: nat :: i < |f| && Holds(m, f, i, n)
  }

  /** It is the i-th, and none behind it does. */
  ghost predicate LastToHold(m: Chunks, f: seq<nat>, i: nat, n: nat) {
    i < |f| && Holds(m, f, i, n) && forall j: nat :: i < j < |f| ==> !Holds(m, f, j, n)
  }

  /** The walk from the tail finds the last chunk that is big enough. */
  lemma {:induction false} WalkFinds(m: Chunks, l: List, f: seq<nat>, k: nat, n: nat, fuel: nat)
    requires Chain(m, l, f) && k <= |f| && k <= fuel && forall j: nat :: k <= j < |f| ==> !Holds(m, f, j, n)
    ensures var r := Reclaimable(m, At(f, k - 1), n, fuel);
            (r.Some? <==> AnyHolds(m, f, n)) &&
            forall i: nat :: LastToHold(m, f, i, n) ==> r == Some(f[i])
    ensures Reclaimable(m, At(f, k - 1), n, fuel).Some? ==> exists i: nat :: LastToHold(m, f, i, n)
    decreases k
  {
    if k > 0 {
      ChainMember(m, l, f, k - 1);
      if Holds(m, f, k - 1, n) {
        assert LastToHold(m, f, k - 1, n);
      } else {
        WalkFinds(m, l, f, k - 1, n, fuel - 1);
      }
    }
  }

  lemma FreeFound(s: State, f: seq<nat>, n: nat)
    requires Chain(s.chunks, s.free, f)
    ensures FreeChunk(s, n).Some? <==> n <= s.base && AnyHolds(s.chunks, f, n)
    ensures FreeChunk(s, n).Some? ==> exists i: nat :: LastToHold(s.chunks, f, i, n) && FreeChunk(s, n).value == f[i]
  {
    ChainDistinct(s.chunks, s.free, f);
    forall i: nat | i < |f| ensures f[i] in s.chunks.Keys {
      ChainMember(s.chunks, s.free, f, i);
    }
    NoMoreThan(f, s.chunks.Keys);
    WalkFinds(s.chunks, s.free, f, |f|, n, |s.chunks|);
  }

  /**
   An allocation gets memory exactly if its 16 bytes of slack fit into the current chunk, or else the
   size of a chunk for it is a size at all, and a free chunk is big enough or the backend gives one.
   */
  lemma AllocatesIff(s: State, f: seq<nat>, size: nat, backend: Option<nat>, newId: nat)
    requires Closed(s) && Chain(s.chunks, s.free, f) && newId !in s.chunks
    ensures var t := AllocateStep(AsWritten, s, size, backend, newId);
            |t.live| == |s.live| + 1 <==>
            size < 0xFFFF_FFFF_FFFF_FFEF &&
            (HasLeft(s, size + 16) ||
             (Bigger(size + 16, s.base) < 0xFFFF_FFFF_FFFF_FFCF &&
              (backend.Some? || (size + 16 <= s.base && AnyHolds(s.chunks, f, size + 16)))))
  {
    FreeFound(s, f, size + 16);
  }

  /** Without memory nothing is live that was not, and the arena has no current chunk left. */
  lemma RefusalLeaves(s: State, size: nat, backend: Option<nat>, newId: nat)
    requires Closed(s) && newId !in s.chunks
    requires |AllocateStep(AsWritten, s, size, backend, newId).live| != |s.live| + 1
    ensures AllocateStep(AsWritten, s, size, backend, newId) ==
            if size < 0xFFFF_FFFF_FFFF_FFEF then s.(current := None) else s
  {
  }

  /** What the new allocation is. */
  ghost predicate Added(s: State, t: State, x: Placed, size: nat) {
    t.live == s.live + [x] && x.size == size && t.current == Some(x.chunk) && x.chunk in t.chunks &&
    t.chunks[x.chunk].used == x.from + size + 16 <= t.chunks[x.chunk].total
  }

  /** One allocation of the requested size is added, behind what the chunk had in use, if there is room. */
  lemma FromCurrent(s: State, size: nat, backend: Option<nat>, newId: nat)
    requires Closed(s) && newId !in s.chunks && size < 0xFFFF_FFFF_FFFF_FFEF && HasLeft(s, size + 16)
    ensures var t := AllocateStep(AsWritten, s, size, backend, newId);
            var c := s.current.value;
            Added(s, t, Placed(c, s.chunks[c].used, size), size) && t.snapshots == s.snapshots && t.free == s.free
  {
  }

  /** Else it is at the start of the last free chunk that is big enough; requests above the base size skip them. */
  lemma FromFree(s: State, f: seq<nat>, size: nat, backend: Option<nat>, newId: nat, i: nat)
    requires Closed(s) && Chain(s.chunks, s.free, f) && newId !in s.chunks
    requires size < 0xFFFF_FFFF_FFFF_FFEF && s.base < 0xFFFF_FFFF_FFFF_FFCF && !HasLeft(s, size + 16)
    requires size + 16 <= s.base && LastToHold(s.chunks, f, i, size + 16)
    ensures var t := AllocateStep(AsWritten, s, size, backend, newId);
            Added(s, t, Placed(f[i], 0, size), size) && t.chunks[f[i]].total == s.chunks[f[i]].total
  {
    FreeFound(s, f, size + 16);
    assert FreeChunk(s, size + 16).Some?;
    OneLast(s.chunks, f, size + 16);
  }

  lemma OneLast(m: Chunks, f: seq<nat>, n: nat)
    ensures forall i: nat, j: nat :: LastToHold(m, f, i, n) && LastToHold(m, f, j, n) ==> i == j
  {
  }

  /** Else at the start of a new chunk, of the base size or of the request's with its slack if that is more. */
  lemma FromBackend(s: State, f: seq<nat>, size: nat, backend: Option<nat>, newId: nat)
    requires Closed(s) && Chain(s.chunks, s.free, f) && newId !in s.chunks && backend.Some?
    requires size < 0xFFFF_FFFF_FFFF_FFEF && Bigger(size + 16, s.base) < 0xFFFF_FFFF_FFFF_FFCF
    requires !HasLeft(s, size + 16) && (size + 16 <= s.base ==> !AnyHolds(s.chunks, f, size + 16))
    ensures var t := AllocateStep(AsWritten, s, size, backend, newId);
            Added(s, t, Placed(newId, 0, size), size) &&
            t.chunks[newId].addr == backend.value && t.chunks[newId].total == Bigger(size + 16, s.base)
  {
    FreeFound(s, f, size + 16);
  }

  /** The pointer is 16-aligned, and the allocation's bytes from it on are within its slot. */
  lemma PointerWithin(m: Chunks, x: Placed)
    requires x.chunk in m
    ensures var start := m[x.chunk].addr + x.from;
            Address(m, x) % 16 == 0 && start <= Address(m, x) && Address(m, x) + x.size < start + x.size + 16
  {
  }

  /** Ending a snapshot by a commit keeps all that is live, and all of the arena. */
  lemma CommitKeepsAll(s: State, ops: seq<Op>)
    requires Closed(s) && AllowedRun(AsWritten, SnapStep(s), ops)
    requires RunsAbove(AsWritten, SnapStep(s), ops, |s.snapshots| + 1)
    requires |Run(AsWritten, SnapStep(s), ops).snapshots| == |s.snapshots| + 1
    ensures var u := Run(AsWritten, SnapStep(s), ops);
            var t := Step(AsWritten, u, Commit);
            t.snapshots == s.snapshots && t.live == u.live && t.chunks == u.chunks && t.active == u.active &&
            t.free == u.free && t.current == u.current
  {
    var d := |s.snapshots| + 1;
    SnapshotsKept(AsWritten, SnapStep(s), ops, d);
    var u := Run(AsWritten, SnapStep(s), ops);
    assert u.snapshots[..d] == u.snapshots && SnapStep(s).snapshots[..d] == SnapStep(s).snapshots;
  }

  /** After a reset nothing is live, and the active chunks are the last of the free ones, as big as they were. */
  lemma ResetFrees(s: State, a: seq<nat>, f: seq<nat>)
    requires Closed(s) && Listed(s, a, f)
    ensures var t := ResetStep(s);
            t.live == [] && t.current == None && t.active == List(None, None) && t.snapshots == s.snapshots &&
            Chain(t.chunks, t.free, f + a) && t.chunks.Keys == s.chunks.Keys &&
            forall c :: c in s.chunks ==> t.chunks[c].addr == s.chunks[c].addr && t.chunks[c].total == s.chunks[c].total
  {
    ResetLists(s, a, f);
    assert forall c :: c in s.chunks ==> SameData(s.chunks, ResetStep(s).chunks, c);
  }

  /** A new arena has no chunk, and gives up the 48 bytes of a chunk header from the size it is given, if it can. */
  lemma StartsEmpty(chunkSize: nat)
    ensures var s := Start(chunkSize);
            s.chunks == map[] && s.live == [] && s.snapshots == [] && s.current == None && s.free == List(None, None) &&
            s.base == if chunkSize > 48 then chunkSize - 48 else chunkSize
  {
  }
}
