/**
 The arena allocator as steps on a value: everything its pointers can look like, also
 after its lists have gone wrong.  A step is taken as the code is written or as its
 comments intend, which differ in two places (see Variant).
 */
module ArenaSteps {
  import opened ChunkList
  import opened ArenaState
  import opened Folding

  const SIZE_MAX: nat := 0xFFFF_FFFF_FFFF_FFFF
  const CHUNK_HEADER: nat := 48

  /** A live allocation: its chunk, and the slot it was given there. */
  datatype Placed = Placed(chunk: nat, from: nat, size: nat)

  /** An open snapshot, and what was live when it was taken. */
  datatype Snapshot = Snapshot(chunk: Option<nat>, used: nat, live: seq<Placed>)

  datatype State = State(
    base: nat, chunks: Chunks, active: List, free: List, current: Option<nat>, snapshots: seq<Snapshot>,
      live: seq<Placed>)

  /**
   As intended, a rollback makes the snapshot's chunk the active tail and the old active
   tail the free tail, and a chunk that cannot be created leaves the current one in place.
   */
  datatype Variant = AsWritten | AsIntended

  datatype Op = Allocate(size: nat, backend: Option<nat>, newId: nat) | Snap | Commit | Rollback | Reset

  function Max(a: nat, b: nat): nat {
    if a < b then b else a
  }

  // --------------------------------------------------------------- closed

  predicate PointsInto(m: Chunks, p: Option<nat>) {
    p.Some? ==> p.value in m
  }

  ghost predicate ClosedChunks(m: Chunks) {
    forall key :: Open(CLOSED, key) ==> ClosedChunksOpen(m)
  }

  ghost predicate ClosedChunksOpen(m: Chunks) {
    forall c :: c in m ==> PointsInto(m, m[c].next) && PointsInto(m, m[c].prev) && m[c].used <= m[c].total
  }

  predicate ClosedList(m: Chunks, l: List) {
    PointsInto(m, l.first) && PointsInto(m, l.last)
  }

  predicate ClosedSnapshot(m: Chunks, s: Snapshot) {
    s.chunk.Some? ==> s.chunk.value in m && s.used <= m[s.chunk.value].total
  }

  /** Every pointer leads to a chunk. */
  ghost predicate Closed(s: State) {
    ClosedChunks(s.chunks) && ClosedList(s.chunks, s.active) && ClosedList(s.chunks, s.free) &&
    PointsInto(s.chunks, s.current) && forall i :: 0 <= i < |s.snapshots| ==> ClosedSnapshot(s.chunks, s.snapshots[i])
  }

  /** Links may differ, what the chunks are and hold does not. */
  ghost predicate SameContents(m: Chunks, n: Chunks) {
    n.Keys == m.Keys && forall c :: c in m ==> SameData(m, n, c)
  }

  ghost predicate Relinked(m: Chunks, n: Chunks) {
    ClosedChunks(n) && SameContents(m, n)
  }

  lemma LinkNext(m: Chunks, n: Chunks, c: nat, p: Option<nat>)
    requires Relinked(m, n) && c in n && PointsInto(n, p)
    ensures Relinked(m, n[c := n[c].(next := p)])
  {
  }

  lemma LinkPrev(m: Chunks, n: Chunks, c: nat, p: Option<nat>)
    requires Relinked(m, n) && c in n && PointsInto(n, p)
    ensures Relinked(m, n[c := n[c].(prev := p)])
  {
  }

  lemma ChunkCloses(m: Chunks, c: nat)
    requires ClosedChunks(m) && c in m
    ensures PointsInto(m, m[c].next) && PointsInto(m, m[c].prev) && m[c].used <= m[c].total
  {
    assert Open(CLOSED, 0);
  }

  lemma TransplantCloses(m: Chunks, active: List, free: List, head: nat)
    requires ClosedChunks(m) && ClosedList(m, active) && ClosedList(m, free) && head in m
    ensures PointsInto(m, m[head].prev)
    ensures var r := Transplant(m, active, free, head);
            Relinked(m, r.0) && ClosedList(r.0, r.1) && ClosedList(r.0, r.2)
  {
    ChunkCloses(m, head);
    var n := m;
    if m[head].prev.Some? {
      LinkNext(m, n, m[head].prev.value, None);
      n := n[m[head].prev.value := n[m[head].prev.value].(next := None)];
      LinkPrev(m, n, head, None);
      n := n[head := n[head].(prev := None)];
    }
    if free.last.Some? {
      LinkPrev(m, n, head, free.last);
      n := n[head := n[head].(prev := free.last)];
      LinkNext(m, n, free.last.value, Some(head));
    }
  }

  lemma EmptyCloses(m: Chunks, c: nat)
    requires ClosedChunks(m) && c in m
    ensures ClosedChunks(m[c := m[c].(used := 0)])
  {
  }

  lemma RemoveCloses(m: Chunks, l: List, c: nat)
    requires ClosedChunks(m) && ClosedList(m, l) && c in m
    ensures Removable(m, c) && Relinked(m, Remove(m, l, c).0) && ClosedList(m, Remove(m, l, c).1)
  {
    ChunkCloses(m, c);
    var n := m;
    if m[c].prev.Some? {
      LinkNext(m, n, m[c].prev.value, m[c].next);
      n := n[m[c].prev.value := n[m[c].prev.value].(next := m[c].next)];
    }
    if m[c].next.Some? {
      LinkPrev(m, n, m[c].next.value, m[c].prev);
      n := n[m[c].next.value := n[m[c].next.value].(prev := m[c].prev)];
    }
    LinkPrev(m, n, c, None);
    LinkNext(m, n[c := n[c].(prev := None)], c, None);
    assert n[c := n[c].(prev := None)][c := n[c].(prev := None, next := None)] ==
           n[c := n[c].(prev := None, next := None)];
  }

  lemma AppendCloses(m: Chunks, active: List, free: List)
    requires ClosedChunks(m) && ClosedList(m, active) && ClosedList(m, free)
    ensures Relinked(m, Append(m, active, free).0) && ClosedList(m, Append(m, active, free).1)
  {
    if active.first.Some? {
      var head := active.first.value;
      LinkPrev(m, m, head, free.last);
      if free.last.Some? {
        LinkNext(m, m[head := m[head].(prev := free.last)], free.last.value, Some(head));
      }
    }
  }

  // ---------------------------------------------------------------- steps

  /** The first chunk from p on, going backwards, that is big enough, within the given number of chunks. */
  function Reclaimable(m: Chunks, p: Option<nat>, minimumSize: nat, fuel: nat): (r: Option<nat>)
    ensures r.Some? ==> r.value in m && m[r.value].total >= minimumSize
    decreases fuel
  {
    if p.None? || p.value !in m || fuel == 0 then None
    else if m[p.value].total >= minimumSize then p
    else Reclaimable(m, m[p.value].prev, minimumSize, fuel - 1)
  }

  /** The backwards walk from p ends within the given number of chunks. */
  predicate WalkEnds(m: Chunks, p: Option<nat>, fuel: nat)
    decreases fuel
  {
    p.None? || (fuel > 0 && p.value in m && WalkEnds(m, m[p.value].prev, fuel - 1))
  }

  /** The chunk, emptied and out of the free list. */
  function TakeFree(s: State, c: nat): (t: State)
    requires Closed(s) && c in s.chunks
    ensures Closed(t) && c in t.chunks && t.chunks[c].used == 0 && t.chunks[c].total == s.chunks[c].total
  {
    var emptied := s.chunks[c := s.chunks[c].(used := 0)];
    EmptyCloses(s.chunks, c);
    RemoveCloses(emptied, s.free, c);
    var r := Remove(emptied, s.free, c);
    s.(chunks := r.0, free := r.1)
  }

  function NewChunk(s: State, newId: nat, addr: nat, total: nat): (t: State)
    requires Closed(s) && newId !in s.chunks
    ensures Closed(t) && newId in t.chunks && t.chunks[newId].used == 0 && t.chunks[newId].total == total
  {
    s.(chunks := s.chunks[newId := Chunk(None, None, addr, total, 0)])
  }

  /** The chunk becomes current and the tail of the active list. */
  function LinkChunk(s: State, c: nat): (t: State)
    requires Closed(s) && c in s.chunks
    ensures Closed(t) && t.current == Some(c) && c in t.chunks
    ensures t.chunks[c].used == s.chunks[c].used && t.chunks[c].total == s.chunks[c].total
  {
    var r := Insert(s.chunks, s.active, c);
    s.(chunks := r.0, active := r.1, current := Some(c))
  }

  /** The free chunk a creation takes, if there is one. */
  function FreeChunk(s: State, minimumSize: nat): (r: Option<nat>)
    ensures r.Some? ==> r.value in s.chunks && s.chunks[r.value].total >= minimumSize
  {
    if Max(minimumSize, s.base) <= s.base then Reclaimable(s.chunks, s.free.last, minimumSize, |s.chunks|) else None
  }

  /** No chunk can be had. */
  predicate CannotCreate(s: State, minimumSize: nat, backend: Option<nat>) {
    Max(minimumSize, s.base) >= SIZE_MAX - CHUNK_HEADER || (FreeChunk(s, minimumSize).None? && backend.None?)
  }

  /** AmlArenaCreateChunk. */
  function Create(s: State, minimumSize: nat, backend: Option<nat>, newId: nat): (t: State)
    requires Closed(s) && newId !in s.chunks && !CannotCreate(s, minimumSize, backend)
    ensures Closed(t) && t.current.Some? && t.chunks[t.current.value].used == 0
    ensures minimumSize <= t.chunks[t.current.value].total
  {
    var found := FreeChunk(s, minimumSize);
    if found.Some? then LinkChunk(TakeFree(s, found.value), found.value)
    else LinkChunk(NewChunk(s, newId, backend.value, Max(minimumSize, s.base)), newId)
  }

  /** The current chunk has room. */
  predicate Fits(s: State, n: nat)
    requires Closed(s)
  {
    s.current.Some? && n <= s.chunks[s.current.value].total - s.chunks[s.current.value].used
  }

  /** Linear allocation from the current chunk. */
  function TakeSlot(s: State, size: nat): (t: State)
    requires Closed(s) && Fits(s, size + ALIGNMENT)
    ensures Closed(t)
  {
    var c := s.current.value;
    var x := Placed(c, s.chunks[c].used, size);
    s.(chunks := s.chunks[c := s.chunks[c].(used := s.chunks[c].used + size + ALIGNMENT)], live := s.live + [x])
  }

  /** The allocation needs a chunk that cannot be had. */
  predicate AllocationFails(s: State, size: nat, backend: Option<nat>)
    requires Closed(s)
  {
    size < SIZE_MAX - ALIGNMENT && !Fits(s, size + ALIGNMENT) && CannotCreate(s, size + ALIGNMENT, backend)
  }

  /** AmlArenaAllocate. */
  function AllocateStep(v: Variant, s: State, size: nat, backend: Option<nat>, newId: nat): (t: State)
    requires Closed(s) && newId !in s.chunks
    ensures Closed(t)
  {
    if size >= SIZE_MAX - ALIGNMENT then s
    else if Fits(s, size + ALIGNMENT) then TakeSlot(s, size)
    else if CannotCreate(s, size + ALIGNMENT, backend) then (if v.AsWritten? then s.(current := None) else s)
    else TakeSlot(Create(s, size + ALIGNMENT, backend, newId), size)
  }

  /** AmlArenaSnapshot. */
  function SnapStep(s: State): (t: State)
    requires Closed(s)
    ensures Closed(t)
  {
    assert Open(CLOSED, 0);
    var used := if s.current.Some? then s.chunks[s.current.value].used else 0;
    s.(snapshots := s.snapshots + [Snapshot(s.current, used, s.live)])
  }

  /** AmlArenaSnapshotCommit of the topmost snapshot. */
  function CommitStep(s: State): (t: State)
    requires Closed(s) && s.snapshots != []
    ensures Closed(t)
  {
    s.(snapshots := s.snapshots[..|s.snapshots| - 1])
  }

  /** AmlArenaReset: every chunk can be reclaimed, and nothing is live. */
  function ResetStep(s: State): (t: State)
    requires Closed(s)
    ensures Closed(t)
  {
    AppendCloses(s.chunks, s.active, s.free);
    var r := Append(s.chunks, s.active, s.free);
    s.(chunks := r.0, free := r.1, active := EMPTY, current := None, live := [])
  }

  /** The lists of a rollback to chunk c. */
  function MoveTail(v: Variant, s: State, c: nat): (t: State)
    requires Closed(s) && c in s.chunks
    ensures Closed(t) && c in t.chunks && t.chunks[c].total == s.chunks[c].total
  {
    if s.chunks[c].next.None? then s
    else
      ChunkCloses(s.chunks, c);
      TransplantCloses(s.chunks, s.active, s.free, s.chunks[c].next.value);
      var r := Transplant(s.chunks, s.active, s.free, s.chunks[c].next.value);
      if v.AsWritten? then s.(chunks := r.0, active := r.1, free := r.2)
      else s.(chunks := r.0, active := List(r.1.first, Some(c)), free := List(r.2.first, s.active.last))
  }

  lemma UsedCloses(s: State, c: nat, used: nat)
    requires Closed(s) && c in s.chunks && used <= s.chunks[c].total
    ensures Closed(s.(chunks := s.chunks[c := s.chunks[c].(used := used)], current := Some(c)))
  {
  }

  /** AmlArenaSnapshotRollback to the topmost snapshot. */
  function RollbackStep(v: Variant, s: State): (t: State)
    requires Closed(s) && s.snapshots != []
    ensures Closed(t)
  {
    var top := s.snapshots[|s.snapshots| - 1];
    var below := CommitStep(s);
    if top.chunk.None? then ResetStep(below).(live := top.live)
    else
      var c := top.chunk.value;
      var t := MoveTail(v, below, c);
      t.(chunks := t.chunks[c := t.chunks[c].(used := top.used)], current := Some(c), live := top.live)
  }

  /** What the caller and the backend owe: a new chunk of its own, and an open snapshot to end. */
  predicate Allowed(s: State, op: Op) {
    match op
    case Allocate(size, backend, newId) =>
      newId !in s.chunks &&
      (backend.Some? ==> forall c :: c in s.chunks ==>
       ApartFrom(backend.value, Max(size + ALIGNMENT, s.base), s.chunks[c]))
    case Snap => true
    case Reset => true
    case Commit => s.snapshots != []
    case Rollback => s.snapshots != []
  }

  function Step(v: Variant, s: State, op: Op): (t: State)
    requires Closed(s) && Allowed(s, op)
    ensures Closed(t)
  {
    match op
    case Allocate(size, backend, newId) => AllocateStep(v, s, size, backend, newId)
    case Snap => SnapStep(s)
    case Commit => CommitStep(s)
    case Rollback => RollbackStep(v, s)
    case Reset => ResetStep(s)
  }

  function Start(chunkSize: nat): (s: State)
    ensures Closed(s)
  {
    State(if chunkSize > CHUNK_HEADER then chunkSize - CHUNK_HEADER else chunkSize, map[], EMPTY, EMPTY, None, [], [])
  }
}
