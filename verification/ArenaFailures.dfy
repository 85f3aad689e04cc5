/**
 Runs of the arena on which the code as written hands out memory that is in use: the
 chunk lists after a rollback past taken chunks, and a chunk that could not be created.
 */
module ArenaFailures {
  import opened ChunkList
  import opened ArenaState
  import opened ArenaSteps
  import opened ArenaRuns
  import opened ArenaTheorems
  import opened Folding

  // ------------------------------------------- memory handed out twice

  /** A chunk of 32 bytes, and the one allocation of 16 bytes it has room for. */
  function Block(next: Option<nat>, prev: Option<nat>, addr: nat, used: nat): Chunk {
    Chunk(next, prev, addr, 32, used)
  }

  function Slot(c: nat): Placed {
    Placed(c, 0, 16)
  }

  function Take(backend: Option<nat>, newId: nat): Op {
    Allocate(16, backend, newId)
  }

  lemma SharedSlot(s: State, x: Placed)
    requires s.live == [x, x] && x.size > 0
    ensures !SoundMemory(s)
  {
    assert !NoOverlap(s.chunks, s.live[0], s.live[1]);
  }

  /** As written, the step leads from s to t. */
  ghost predicate Goes(s: State, op: Op, t: State) {
    Closed(s) && forall key :: Open(GOES, key) ==> Allowed(s, op) && Step(AsWritten, s, op) == t
  }

  lemma GoesCloses(s: State, op: Op, t: State)
    requires Goes(s, op, t)
    ensures Closed(t)
  {
    assert Open(GOES, 0);
  }

  lemma After(s: State, op: Op, t: State, rest: seq<Op>)
    requires Goes(s, op, t) && Closed(t) && AllowedRun(AsWritten, t, rest)
    ensures Closed(s) && AllowedRun(AsWritten, s, [op] + rest) &&
            Run(AsWritten, s, [op] + rest) == Run(AsWritten, t, rest)
  {
    assert Open(GOES, 0);
    assert ([op] + rest)[1..] == rest;
  }

  lemma FromHere(s: State, ops: seq<Op>, k: nat, t: State)
    requires k < |ops| && Goes(s, ops[k], t) && Closed(t) && AllowedRun(AsWritten, t, ops[k + 1..])
    ensures Closed(s) && AllowedRun(AsWritten, s, ops[k..]) &&
            Run(AsWritten, s, ops[k..]) == Run(AsWritten, t, ops[k + 1..])
  {
    After(s, ops[k], t, ops[k + 1..]);
    assert [ops[k]] + ops[k + 1..] == ops[k..];
  }

  /** The states of a run with a rollback past two taken chunks, and of another past it. */
  function Twice(k: nat): State {
    var outer, inner := Snapshot(None, 0, []), Snapshot(Some(1), 32, [Slot(1)]);
    var one := map[1 := Block(None, None, 0, 32)];
    var two := map[1 := Block(Some(2), None, 0, 32), 2 := Block(None, Some(1), 100, 32)];
    var three := map[1 := Block(Some(2), None, 0, 32), 2 := Block(Some(3), Some(1), 100, 32),
                     3 := Block(None, Some(2), 200, 32)];
    var moved := map[1 := Block(None, None, 0, 32), 2 := Block(Some(3), None, 100, 32),
                     3 := Block(None, Some(2), 200, 32)];
    var reclaimed := map[1 := Block(None, None, 0, 32), 2 := Block(None, None, 100, 32),
                         3 := Block(Some(3), Some(3), 200, 32)];
    var lost := map[1 := Block(None, Some(2), 0, 32), 2 := Block(Some(1), None, 100, 32),
                    3 := Block(Some(3), Some(3), 200, 32)];
    var handedOut := lost[3 := Block(None, None, 200, 32)];
    if k == 0 then State(32, map[], EMPTY, EMPTY, None, [], [])
    else if k == 1 then State(32, map[], EMPTY, EMPTY, None, [outer], [])
    else if k == 2 then State(32, one, List(Some(1), Some(1)), EMPTY, Some(1), [outer], [Slot(1)])
    else if k == 3 then State(32, one, List(Some(1), Some(1)), EMPTY, Some(1), [outer, inner], [Slot(1)])
    else if k == 4 then State(32, two, List(Some(1), Some(2)), EMPTY, Some(2), [outer, inner], [Slot(1), Slot(2)])
    else if k == 5 then
      State(32, three, List(Some(1), Some(3)), EMPTY, Some(3), [outer, inner], [Slot(1), Slot(2), Slot(3)])
    else if k == 6 then
      State(32, moved, List(Some(1), Some(3)), List(Some(2), Some(3)), Some(1), [outer], [Slot(1)])
    else if k == 7 then
      State(32, reclaimed, List(Some(1), Some(3)), List(Some(2), Some(2)), Some(3), [outer], [Slot(1), Slot(3)])
    else if k == 8 then State(32, lost, EMPTY, List(Some(2), Some(3)), None, [], [])
    else if k == 9 then
      State(32, handedOut, List(Some(3), Some(3)), List(Some(2), Some(3)), Some(3), [], [Slot(3)])
    else State(32, lost, List(Some(3), Some(3)), List(Some(2), None), Some(3), [], [Slot(3), Slot(3)])
  }

  lemma Twice0()
    ensures Goes(Twice(0), Snap, Twice(1))
  {
  }

  lemma Twice1()
    requires Closed(Twice(1))
    ensures Goes(Twice(1), Take(Some(0), 1), Twice(2))
  {
  }

  lemma Twice2()
    requires Closed(Twice(2))
    ensures Goes(Twice(2), Snap, Twice(3))
  {
  }

  lemma Twice3()
    requires Closed(Twice(3))
    ensures Goes(Twice(3), Take(Some(100), 2), Twice(4))
  {
  }

  lemma Twice4()
    requires Closed(Twice(4))
    ensures Goes(Twice(4), Take(Some(200), 3), Twice(5))
  {
    FreshGoes(Twice(4), 200, 3, 2);
  }

  /** No free chunk, and no room in the current one: a new chunk behind the active tail e. */
  lemma FreshGoes(s: State, addr: nat, newId: nat, e: nat)
    requires Closed(s) && Allowed(s, Take(Some(addr), newId)) && s.base == 32 && s.free.last.None? && !Fits(s, 32)
    requires s.active.last == Some(e) && s.active.first.Some?
    ensures Goes(s, Take(Some(addr), newId),
                 s.(chunks := s.chunks[e := s.chunks[e].(next := Some(newId))][newId := Block(None, Some(e), addr, 32)],
                    active := List(s.active.first, Some(newId)), current := Some(newId),
                      live := s.live + [Slot(newId)]))
  {
  }

  lemma Twice5()
    requires Closed(Twice(5))
    ensures Goes(Twice(5), Rollback, Twice(6))
  {
  }

  lemma Twice6()
    requires Closed(Twice(6))
    ensures Goes(Twice(6), Take(None, 4), Twice(7))
  {
  }

  lemma Twice7()
    requires Closed(Twice(7))
    ensures Goes(Twice(7), Rollback, Twice(8))
  {
  }

  lemma Twice8()
    requires Closed(Twice(8))
    ensures Goes(Twice(8), Take(None, 4), Twice(9))
  {
  }

  lemma Twice9()
    requires Closed(Twice(9))
    ensures Goes(Twice(9), Take(None, 4), Twice(10))
  {
  }

  const TWICE: seq<Op> :=
    [Snap, Take(Some(0), 1), Snap, Take(Some(100), 2), Take(Some(200), 3), Rollback, Take(None, 4), Rollback,
     Take(None, 4),
     Take(None, 4)]

  lemma TwiceGoes(k: nat)
    requires k < 10 && Closed(Twice(k))
    ensures Goes(Twice(k), TWICE[k], Twice(k + 1))
  {
    match k
    case 0 => Twice0();
    case 1 => Twice1();
    case 2 => Twice2();
    case 3 => Twice3();
    case 4 => Twice4();
    case 5 => Twice5();
    case 6 => Twice6();
    case 7 => Twice7();
    case 8 => Twice8();
    case 9 => Twice9();
  }

  lemma TwiceEnds()
    ensures Twice(10).live == [Slot(3), Slot(3)] && !SoundMemory(Twice(10))
  {
    SharedSlot(Twice(10), Slot(3));
  }

  lemma TwiceStarts()
    ensures Twice(0) == Start(80)
  {
  }

  lemma {:induction false} TwiceRuns(k: nat)
    requires k <= 10 && Closed(Twice(k))
    ensures AllowedRun(AsWritten, Twice(k), TWICE[k..]) && Run(AsWritten, Twice(k), TWICE[k..]) == Twice(10)
    decreases 10 - k
  {
    if k < 10 {
      TwiceGoes(k);
      GoesCloses(Twice(k), TWICE[k], Twice(k + 1));
      TwiceRuns(k + 1);
      FromHere(Twice(k), TWICE, k, Twice(k + 1));
    }
  }

  /**
   As written, a rollback past taken chunks leads to two live allocations of the same
   memory: the chunk that has just been handed out stays the tail of the free list.
   */
  lemma MemoryHandedOutTwice()
    ensures AllowedRun(AsWritten, Start(80), TWICE)
    ensures var t := Run(AsWritten, Start(80), TWICE);
            t.live == [Slot(3), Slot(3)] && !SoundMemory(t)
  {
    TwiceStarts();
    TwiceRuns(0);
    assert TWICE[0..] == TWICE;
    TwiceEnds();
  }

  // ------------------------------------------------- a failed creation

  /**
   As written, an allocation that fails for want of a chunk makes the next snapshot forget
   the chunks there are: rolling it back puts all of them in the free list, although what
   is in them is live.
   */
  lemma FailureFreesLive(s: State, size: nat, newId: nat)
    requires Closed(s) && Inv(s) && s.current.Some? && newId !in s.chunks && AllocationFails(s, size, None)
    ensures var ops := [Allocate(size, None, newId), Snap, Rollback];
            AllowedRun(AsWritten, s, ops) &&
            var t := Run(AsWritten, s, ops);
            t.live == s.live && t.active == EMPTY && t.current == None &&
            exists a, f ::
              Listed(s, a, f) && Chain(t.chunks, t.free, f + a) &&
              forall i :: 0 <= i < |s.live| ==> s.live[i].chunk in a
  {
    var v :| Good(s, v);
    var forgotten := s.(current := None);
    AppendChain(s.chunks, s.active, v.a, s.free, v.f);
    AllLiveActive(s, v);
    assert CommitStep(SnapStep(forgotten)) == forgotten;
    var t := RollbackStep(AsWritten, SnapStep(forgotten));
    assert Run(AsWritten, t, []) == t;
    assert [Snap, Rollback][1..] == [Rollback] && [Rollback][1..] == [];
    assert [Allocate(size, None, newId), Snap, Rollback][1..] == [Snap, Rollback];
  }

  lemma AllLiveActive(s: State, v: View)
    requires Good(s, v)
    ensures forall i :: 0 <= i < |s.live| ==> s.live[i].chunk in v.a
  {
    assert Open(ARENA, 0);
    forall i | 0 <= i < |s.live| ensures s.live[i].chunk in v.a {
      assert InChunk(s.chunks, v.a, v.live[i]);
    }
  }

  /** The states of a run with a failed allocation. */
  function Refused(k: nat): State {
    if k == 0 then State(32, map[], EMPTY, EMPTY, None, [], [])
    else if k == 1 then State(32, map[1 := Block(None, None, 0, 32)], List(Some(1), Some(1)), EMPTY, Some(1), [],
                              [Slot(1)])
    else if k == 2 then State(32, map[1 := Block(None, None, 0, 32)], List(Some(1), Some(1)), EMPTY, None, [],
                              [Slot(1)])
    else if k == 3 then State(32, map[1 := Block(None, None, 0, 32)], List(Some(1), Some(1)), EMPTY, None,
                              [Snapshot(None, 0, [Slot(1)])], [Slot(1)])
    else if k == 4 then State(32, map[1 := Block(None, None, 0, 32)], EMPTY, List(Some(1), Some(1)), None, [],
                              [Slot(1)])
    else State(32, map[1 := Block(None, None, 0, 32)], List(Some(1), Some(1)), EMPTY, Some(1), [], [Slot(1), Slot(1)])
  }

  const REFUSED: seq<Op> := [Take(Some(0), 1), Take(None, 2), Snap, Rollback, Take(None, 2)]

  lemma Refused0()
    requires Closed(Refused(0))
    ensures Goes(Refused(0), Take(Some(0), 1), Refused(1))
  {
  }

  lemma Refused1()
    requires Closed(Refused(1))
    ensures Goes(Refused(1), Take(None, 2), Refused(2))
  {
  }

  lemma Refused2()
    requires Closed(Refused(2))
    ensures Goes(Refused(2), Snap, Refused(3))
  {
  }

  lemma Refused3()
    requires Closed(Refused(3))
    ensures Goes(Refused(3), Rollback, Refused(4))
  {
  }

  lemma Refused4()
    requires Closed(Refused(4))
    ensures Goes(Refused(4), Take(None, 2), Refused(5))
  {
  }

  lemma RefusedGoes(k: nat)
    requires k < 5 && Closed(Refused(k))
    ensures Goes(Refused(k), REFUSED[k], Refused(k + 1))
  {
    match k
    case 0 => Refused0();
    case 1 => Refused1();
    case 2 => Refused2();
    case 3 => Refused3();
    case 4 => Refused4();
  }

  lemma {:induction false} RefusedRuns(k: nat)
    requires k <= 5 && Closed(Refused(k))
    ensures AllowedRun(AsWritten, Refused(k), REFUSED[k..]) && Run(AsWritten, Refused(k), REFUSED[k..]) == Refused(5)
    decreases 5 - k
  {
    if k < 5 {
      RefusedGoes(k);
      GoesCloses(Refused(k), REFUSED[k], Refused(k + 1));
      RefusedRuns(k + 1);
      FromHere(Refused(k), REFUSED, k, Refused(k + 1));
    }
  }

  lemma RefusedEnds()
    ensures Refused(5).live == [Slot(1), Slot(1)] && !SoundMemory(Refused(5))
  {
    SharedSlot(Refused(5), Slot(1));
  }

  lemma RefusedStarts()
    ensures Refused(0) == Start(80)
  {
  }

  /** So the next allocation gets the memory of a live one. */
  lemma MemoryGivenAway()
    ensures AllowedRun(AsWritten, Start(80), REFUSED)
    ensures var t := Run(AsWritten, Start(80), REFUSED);
            t.live == [Slot(1), Slot(1)] && !SoundMemory(t)
  {
    RefusedStarts();
    RefusedRuns(0);
    assert REFUSED[0..] == REFUSED;
    RefusedEnds();
  }
}
