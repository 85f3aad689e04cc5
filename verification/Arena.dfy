/**
 The arena allocator (src/aml_arena.c): linear allocation from a current chunk, chunk
 lists for active and reclaimable chunks, and snapshots taken and ended last in, first
 out.  Each method is the step of ArenaSteps as written, whatever state the lists are in.
 */
module Arena {
  import opened ChunkList
  import opened ArenaState
  import opened ArenaSteps
  import opened ArenaRuns

  /** AML_ARENA_SNAPSHOT. */
  datatype Mark = Mark(index: nat, chunk: Option<nat>, chunkUsedSize: nat)

  class Arena {
    const baseChunkSize: nat
    var chunks: Chunks
    var active: List
    var free: List
    var current: Option<nat>
    var snapshotCount: nat
    // The open snapshots with what was live at each, and what is live now.
    ghost var snapshots: seq<Snapshot>
    ghost var live: seq<Placed>

    ghost function Model(): State
      reads this
    {
      State(baseChunkSize, chunks, active, free, current, snapshots, live)
    }

    ghost predicate Valid()
      reads this
    {
      Closed(Model()) && snapshotCount == |snapshots|
    }

    /** AmlArenaInitialize. */
    constructor (chunkSize: nat)
      ensures Valid() && Model() == Start(chunkSize)
    {
      baseChunkSize := if chunkSize > CHUNK_HEADER then chunkSize - CHUNK_HEADER else chunkSize;
      chunks, active, free, current, snapshotCount := map[], EMPTY, EMPTY, None, 0;
      snapshots, live := [], [];
    }

    // ------------------------------------------------------------ chunks

    /** AmlArenaTryReclaimFreeChunk: from the tail, the first chunk that is big enough. */
    method TryReclaimFreeChunk(minimumSize: nat) returns (chunk: Option<nat>)
      requires Valid() && WalkEnds(chunks, free.last, |chunks|)
      modifies `chunks, `free
      ensures Valid() && chunk == Reclaimable(old(chunks), old(free).last, minimumSize, |old(chunks)|)
      ensures Model() == if chunk.Some? then TakeFree(old(Model()), chunk.value) else old(Model())
    {
      chunk := free.last;
      ghost var fuel: nat := |chunks|;
      while chunk.Some?
        invariant chunks == old(chunks) && free == old(free) && WalkEnds(chunks, chunk, fuel)
        invariant Reclaimable(chunks, chunk, minimumSize, fuel) == Reclaimable(chunks, free.last, minimumSize, |chunks|)
        decreases fuel
      {
        if chunks[chunk.value].total >= minimumSize {
          EmptyAndUnlink(chunk.value);
          return;
        }
        chunk := chunks[chunk.value].prev;
        fuel := fuel - 1;
      }
    }

    method EmptyAndUnlink(c: nat)
      requires Valid() && c in chunks
      modifies `chunks, `free
      ensures Valid() && Model() == TakeFree(old(Model()), c)
    {
      EmptyCloses(chunks, c);
      chunks := chunks[c := chunks[c].(used := 0)];
      RemoveCloses(chunks, free, c);
      var removed := Remove(chunks, free, c);
      chunks, free := removed.0, removed.1;
    }

    /**
     AmlArenaCreateChunk; backend is where the backend allocator would put the data of a
     new chunk, and newId names it.
     */
    method CreateChunk(minimumSize: nat, backend: Option<nat>, newId: nat) returns (ok: bool)
      requires Valid() && WalkEnds(chunks, free.last, |chunks|) && newId !in chunks
      modifies `chunks, `active, `free, `current
      ensures Valid() && (ok <==> !CannotCreate(old(Model()), minimumSize, backend))
      ensures Model() == if ok then Create(old(Model()), minimumSize, backend, newId) else old(Model())
    {
      var chunkDataSize := Max(minimumSize, baseChunkSize);
      if chunkDataSize >= SIZE_MAX - CHUNK_HEADER {
        return false;
      }
      var chunk: Option<nat> := None;
      if chunkDataSize <= baseChunkSize {
        chunk := TryReclaimFreeChunk(minimumSize);
      }
      if chunk.None? {
        if backend.None? {
          return false;
        }
        chunk := Some(newId);
        AddChunk(newId, backend.value, chunkDataSize);
      }
      MakeCurrent(chunk.value);
      return true;
    }

    method AddChunk(newId: nat, addr: nat, total: nat)
      requires Valid() && newId !in chunks
      modifies `chunks
      ensures Valid() && Model() == NewChunk(old(Model()), newId, addr, total)
    {
      chunks := chunks[newId := Chunk(None, None, addr, total, 0)];
    }

    /** The chunk becomes current and the tail of the active list. */
    method MakeCurrent(c: nat)
      requires Valid() && c in chunks
      modifies `chunks, `active, `current
      ensures Valid() && Model() == LinkChunk(old(Model()), c)
    {
      current := Some(c);
      var inserted := Insert(chunks, active, c);
      chunks, active := inserted.0, inserted.1;
    }

    // -------------------------------------------------------- allocation

    /** AmlArenaAllocate; the pointer is that of the allocation the step adds. */
    method Allocate(dataSize: nat, backend: Option<nat>, newId: nat) returns (p: Option<nat>)
      requires Valid() && WalkEnds(chunks, free.last, |chunks|) && newId !in chunks
      modifies `chunks, `active, `free, `current, `live
      ensures Valid() && Model() == AllocateStep(AsWritten, old(Model()), dataSize, backend, newId)
      ensures if p.None? then live == old(live) else HandedOut(old(live), live, chunks, dataSize, p.value)
    {
      if dataSize >= SIZE_MAX - ALIGNMENT {
        return None;
      }
      var allocationSize := dataSize + ALIGNMENT;
      var allocatable := false;
      if current.Some? {
        allocatable := chunks[current.value].total - chunks[current.value].used >= allocationSize;
      }
      if !allocatable {
        var ok := CreateChunk(allocationSize, backend, newId);
        if !ok {
          current := None;
          return None;
        }
      }
      p := PlaceInCurrent(dataSize);
    }

    /** Linear allocation from the current chunk. */
    method PlaceInCurrent(dataSize: nat) returns (p: Option<nat>)
      requires Valid() && Fits(Model(), dataSize + ALIGNMENT)
      modifies `chunks, `live
      ensures Valid() && Model() == TakeSlot(old(Model()), dataSize)
      ensures p.Some? && HandedOut(old(live), live, chunks, dataSize, p.value)
    {
      var c := current.value;
      var base := chunks[c].addr + chunks[c].used;
      live := live + [Placed(c, chunks[c].used, dataSize)];
      chunks := chunks[c := chunks[c].(used := chunks[c].used + dataSize + ALIGNMENT)];
      return Some(AlignUp16(base));
    }

    // --------------------------------------------------------- snapshots

    /** AmlArenaSnapshot. */
    method TakeSnapshot() returns (s: Mark)
      requires Valid()
      modifies `snapshotCount, `snapshots
      ensures Valid() && Model() == SnapStep(old(Model()))
      ensures s.index == old(snapshotCount) && Marks(s, snapshots[s.index])
    {
      if current.Some? {
        ChunkCloses(chunks, current.value);
      }
      s := Mark(snapshotCount, current, if current.Some? then chunks[current.value].used else 0);
      snapshots := snapshots + [Snapshot(s.chunk, s.chunkUsedSize, live)];
      snapshotCount := snapshotCount + 1;
    }

    /** AmlArenaSnapshotCommit: everything allocated since stays; only the topmost snapshot can be ended. */
    method Commit(s: Mark) returns (ok: bool)
      requires Valid()
      modifies `snapshotCount, `snapshots
      ensures Valid() && (ok <==> s.index + 1 == old(snapshotCount))
      ensures Model() == if ok then CommitStep(old(Model())) else old(Model())
    {
      if s.index != snapshotCount - 1 {
        return false;
      }
      snapshots := snapshots[..|snapshots| - 1];
      snapshotCount := snapshotCount - 1;
      return true;
    }

    /** AmlArenaReset. */
    method Reset()
      requires Valid()
      modifies `chunks, `active, `free, `current, `live
      ensures Valid() && Model() == ResetStep(old(Model()))
    {
      AppendCloses(chunks, active, free);
      var appended := Append(chunks, active, free);
      chunks, free := appended.0, appended.1;
      active := EMPTY;
      current := None;
      live := [];
    }

    /** AmlArenaSnapshotRollback: only to the topmost snapshot. */
    method Rollback(s: Mark) returns (ok: bool)
      requires Valid() && (s.index + 1 == snapshotCount ==> Marks(s, snapshots[s.index]))
      modifies `chunks, `active, `free, `current, `live, `snapshotCount, `snapshots
      ensures Valid() && (ok <==> s.index + 1 == old(snapshotCount))
      ensures Model() == if ok then RollbackStep(AsWritten, old(Model())) else old(Model())
    {
      if s.index != snapshotCount - 1 {
        return false;
      }
      ghost var top := snapshots[s.index];
      snapshots := snapshots[..|snapshots| - 1];
      snapshotCount := snapshotCount - 1;
      if s.chunk.None? {
        Reset();
      } else {
        GoBack(s.chunk.value, s.chunkUsedSize);
      }
      live := top.live;
      return true;
    }

    /** The chunks and lists of a rollback to chunk c. */
    method GoBack(c: nat, used: nat)
      requires Valid() && c in chunks && used <= chunks[c].total
      modifies `chunks, `active, `free, `current
      ensures Valid()
      ensures var t := MoveTail(AsWritten, old(Model()), c);
              Model() == t.(chunks := t.chunks[c := t.chunks[c].(used := used)], current := Some(c))
    {
      ghost var t := MoveTail(AsWritten, Model(), c);
      UsedCloses(t, c, used);
      MoveChunksAfter(c);
      current := Some(c);
      chunks := chunks[c := chunks[c].(used := used)];
    }

    /** The chunks taken after c go to the free list. */
    method MoveChunksAfter(c: nat)
      requires Valid() && c in chunks
      modifies `chunks, `active, `free
      ensures Valid() && Model() == MoveTail(AsWritten, old(Model()), c)
    {
      ChunkCloses(chunks, c);
      if chunks[c].next.Some? {
        TransplantCloses(chunks, active, free, chunks[c].next.value);
        var r := Transplant(chunks, active, free, chunks[c].next.value);
        chunks, active, free := r.0, r.1, r.2;
      }
    }
  }

  /** One allocation of the size has come to be live, and p is the first multiple of 16 in its slot. */
  ghost predicate HandedOut(before: seq<Placed>, after: seq<Placed>, m: Chunks, size: nat, p: nat) {
    |after| == |before| + 1 && after[..|before|] == before &&
    var x := after[|before|];
    x.size == size && x.chunk in m && p % 16 == 0 && m[x.chunk].addr + x.from <= p < m[x.chunk].addr + x.from + 16
  }

  /** The record holds what the open snapshot does. */
  predicate Marks(s: Mark, snapshot: Snapshot) {
    s.chunk == snapshot.chunk && s.chunkUsedSize == snapshot.used
  }
}
