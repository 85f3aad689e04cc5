/**
 What holds of the arena over whole runs, and the runs on which the code as written
 hands out the same memory twice.
 */
module ArenaTheorems {
  import opened ChunkList
  import opened ArenaState
  import opened ArenaSteps
  import opened ArenaRuns
  import opened Folding

  // ----------------------------------------------------- one sound state

  /** The address handed out for an allocation. */
  function Address(m: Chunks, x: Placed): nat
    requires x.chunk in m
  {
    AlignUp16(m[x.chunk].addr + x.from)
  }

  /** 16-aligned, and inside the used part of its chunk. */
  predicate Inside(m: Chunks, x: Placed) {
    x.chunk in m &&
    var p, c := Address(m, x), m[x.chunk];
    p % ALIGNMENT == 0 && c.addr <= p && p + x.size <= c.addr + c.used <= c.addr + c.total
  }

  predicate NoOverlap(m: Chunks, x: Placed, y: Placed) {
    x.chunk in m && y.chunk in m && (Address(m, x) + x.size <= Address(m, y) || Address(m, y) + y.size <= Address(m, x))
  }

  /** The allocations are aligned, inside active chunks and pairwise apart. */
  ghost predicate LiveIn(m: Chunks, a: seq<nat>, live: seq<Placed>) {
    (forall i :: 0 <= i < |live| ==> live[i].chunk in a && Inside(m, live[i])) &&
    (forall i, j :: 0 <= i < j < |live| ==> NoOverlap(m, live[i], live[j]))
  }

  /**
   Each chunk is in exactly one list, and the live allocations are in active chunks, where
   they should be.  Listed also demands that the current chunk is the last active one.
   */
  ghost predicate SoundMemory(s: State) {
    exists a, f :: Listed(s, a, f) && Partition(s.chunks, a, f) && LiveIn(s.chunks, a, s.live)
  }

  lemma InvIsSound(s: State)
    requires Inv(s)
    ensures SoundMemory(s)
  {
    var v :| Good(s, v);
    ListedChunks(s.chunks, v.a, v.f, v.live, v.saved);
    forall i | 0 <= i < |s.live| ensures s.live[i].chunk in v.a && Inside(s.chunks, s.live[i]) {
      AllocationInside(s.chunks, v.a, v.f, v.live, v.saved, i);
    }
    forall i, j | 0 <= i < j < |s.live| ensures NoOverlap(s.chunks, s.live[i], s.live[j]) {
      AllocationsDisjoint(s.chunks, v.a, v.f, v.live, v.saved, i, j);
    }
    assert LiveIn(s.chunks, v.a, s.live);
  }

  lemma StartIsInv(chunkSize: nat)
    ensures Inv(Start(chunkSize))
  {
    assert Good(Start(chunkSize), View([], [], [], []));
  }

  lemma {:induction false} NoMoreThan(ids: seq<nat>, s: set<nat>)
    requires Distinct(ids) && forall i :: 0 <= i < |ids| ==> ids[i] in s
    ensures |ids| <= |s|
    decreases |ids|
  {
    if ids != [] {
      var k := |ids| - 1;
      NoMoreThan(ids[..k], s - {ids[k]});
    }
  }

  lemma {:induction false} ChainWalkEnds(m: Chunks, l: List, f: seq<nat>, k: nat, fuel: nat)
    requires Chain(m, l, f) && k <= |f| && k <= fuel
    ensures WalkEnds(m, At(f, k - 1), fuel)
    decreases k
  {
    if k > 0 {
      ChainMember(m, l, f, k - 1);
      ChainWalkEnds(m, l, f, k - 1, fuel - 1);
    }
  }

  /** In a sound state looking for a free chunk comes to an end. */
  lemma FreeWalkEnds(s: State)
    requires Inv(s)
    ensures WalkEnds(s.chunks, s.free.last, |s.chunks|)
  {
    var v :| Good(s, v);
    ListedChunks(s.chunks, v.a, v.f, v.live, v.saved);
    NoMoreThan(v.f, s.chunks.Keys);
    ChainWalkEnds(s.chunks, s.free, v.f, |v.f|, |s.chunks|);
  }

  // ---------------------------------------------------------------- runs

  /** Every step of the run finds what it needs. */
  predicate AllowedRun(v: Variant, s: State, ops: seq<Op>)
    requires Closed(s)
    decreases |ops|
  {
    ops == [] || (Allowed(s, ops[0]) && AllowedRun(v, Step(v, s, ops[0]), ops[1..]))
  }

  function Run(v: Variant, s: State, ops: seq<Op>): (t: State)
    requires Closed(s) && AllowedRun(v, s, ops)
    ensures Closed(t)
    decreases |ops|
  {
    if ops == [] then s else Run(v, Step(v, s, ops[0]), ops[1..])
  }

  predicate OrderlyRun(v: Variant, s: State, ops: seq<Op>)
    requires Closed(s) && AllowedRun(v, s, ops)
    decreases |ops|
  {
    ops == [] || (Orderly(s, ops[0]) && OrderlyRun(v, Step(v, s, ops[0]), ops[1..]))
  }

  predicate CarefulRun(s: State, ops: seq<Op>)
    requires Closed(s) && AllowedRun(AsWritten, s, ops)
    decreases |ops|
  {
    ops == [] || (Careful(s, ops[0]) && CarefulRun(Step(AsWritten, s, ops[0]), ops[1..]))
  }

  /** The invariant holds before, between and after the steps. */
  ghost predicate InvThroughout(v: Variant, s: State, ops: seq<Op>)
    requires Closed(s) && AllowedRun(v, s, ops)
    decreases |ops|
  {
    Inv(s) && (ops == [] || InvThroughout(v, Step(v, s, ops[0]), ops[1..]))
  }

  /** As intended, memory stays sound over every run that resets only when no open snapshot holds a chunk. */
  lemma {:induction false} IntendedRun(s: State, ops: seq<Op>)
    requires Closed(s) && Inv(s) && AllowedRun(AsIntended, s, ops)
    ensures InvThroughout(AsIntended, s, ops) <==> OrderlyRun(AsIntended, s, ops)
    ensures OrderlyRun(AsIntended, s, ops) ==> SoundMemory(Run(AsIntended, s, ops))
    decreases |ops|
  {
    if ops == [] {
      InvIsSound(s);
    } else {
      IntendedExact(s, ops[0]);
      if Orderly(s, ops[0]) {
        IntendedRun(Step(AsIntended, s, ops[0]), ops[1..]);
      } else {
        BrokenAtOnce(AsIntended, s, ops);
      }
    }
  }

  /** As written, memory stays sound over every careful run, and the invariant over no other. */
  lemma {:induction false} WrittenRun(s: State, ops: seq<Op>)
    requires Closed(s) && Inv(s) && AllowedRun(AsWritten, s, ops)
    ensures InvThroughout(AsWritten, s, ops) <==> CarefulRun(s, ops)
    ensures CarefulRun(s, ops) ==> SoundMemory(Run(AsWritten, s, ops))
    decreases |ops|
  {
    if ops == [] {
      InvIsSound(s);
    } else {
      StepExact(s, ops[0]);
      if Careful(s, ops[0]) {
        WrittenRun(Step(AsWritten, s, ops[0]), ops[1..]);
      } else {
        BrokenAtOnce(AsWritten, s, ops);
      }
    }
  }

  lemma BrokenAtOnce(v: Variant, s: State, ops: seq<Op>)
    requires Closed(s) && AllowedRun(v, s, ops) && ops != [] && !Inv(Step(v, s, ops[0]))
    ensures !InvThroughout(v, s, ops)
  {
    assert !InvThroughout(v, Step(v, s, ops[0]), ops[1..]);
  }

  lemma IntendedExact(s: State, op: Op)
    requires Closed(s) && Inv(s) && Allowed(s, op)
    ensures Inv(Step(AsIntended, s, op)) <==> Orderly(s, op)
  {
    if Orderly(s, op) {
      IntendedKeeps(s, op);
    } else {
      NoActiveChunkless(ResetStep(s));
    }
  }

  /** A careful run does what was intended. */
  lemma {:induction false} CarefulRunAsIntended(s: State, ops: seq<Op>)
    requires Closed(s) && Inv(s) && AllowedRun(AsWritten, s, ops) && CarefulRun(s, ops)
    ensures AllowedRun(AsIntended, s, ops) && Run(AsIntended, s, ops) == Run(AsWritten, s, ops)
    decreases |ops|
  {
    if ops != [] {
      CarefulAsIntended(s, ops[0]);
      StepExact(s, ops[0]);
      CarefulRunAsIntended(Step(AsWritten, s, ops[0]), ops[1..]);
    }
  }

  // ------------------------------------------------------------ rollback

  /** No step of the run ends one of the first d snapshots. */
  predicate RunsAbove(v: Variant, s: State, ops: seq<Op>, d: nat)
    requires Closed(s) && AllowedRun(v, s, ops)
    decreases |ops|
  {
    ops == [] ||
    (((ops[0].Commit? || ops[0].Rollback?) ==> |s.snapshots| > d) && RunsAbove(v, Step(v, s, ops[0]), ops[1..], d))
  }

  lemma StepKeepsBelow(v: Variant, s: State, op: Op, d: nat)
    requires Closed(s) && Allowed(s, op) && d <= |s.snapshots| && ((op.Commit? || op.Rollback?) ==> |s.snapshots| > d)
    ensures d <= |Step(v, s, op).snapshots| && Step(v, s, op).snapshots[..d] == s.snapshots[..d]
  {
  }

  lemma {:induction false} SnapshotsKept(v: Variant, s: State, ops: seq<Op>, d: nat)
    requires Closed(s) && AllowedRun(v, s, ops) && d <= |s.snapshots| && RunsAbove(v, s, ops, d)
    ensures d <= |Run(v, s, ops).snapshots| && Run(v, s, ops).snapshots[..d] == s.snapshots[..d]
    decreases |ops|
  {
    if ops != [] {
      StepKeepsBelow(v, s, ops[0], d);
      SnapshotsKept(v, Step(v, s, ops[0]), ops[1..], d);
    }
  }

  /**
   Whatever was done since a snapshot, rolling back to it leaves live exactly what was
   live then, and the snapshot's chunk current and as full as it was.
   */
  lemma RollbackRestores(v: Variant, s: State, ops: seq<Op>)
    requires Closed(s) && AllowedRun(v, SnapStep(s), ops) && RunsAbove(v, SnapStep(s), ops, |s.snapshots| + 1)
    requires |Run(v, SnapStep(s), ops).snapshots| == |s.snapshots| + 1
    ensures var t := Step(v, Run(v, SnapStep(s), ops), Rollback);
            t.live == s.live && t.snapshots == s.snapshots && t.current == s.current &&
            (s.current.Some? ==> s.current.value in t.chunks &&
                                 t.chunks[s.current.value].used == s.chunks[s.current.value].used)
  {
    var d := |s.snapshots| + 1;
    SnapshotsKept(v, SnapStep(s), ops, d);
    var u := Run(v, SnapStep(s), ops);
    assert u.snapshots[..d] == u.snapshots && SnapStep(s).snapshots[..d] == SnapStep(s).snapshots;
  }
}
