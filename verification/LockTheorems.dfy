/**
 Whole-run theorems about method scopes and mutexes.
 */
module LockTheorems {
  import opened Locks

  /** The part of a chain that belongs to scopes below depth d. */
  function Outer(chain: seq<Level>, d: nat): seq<Level> {
    if chain != [] && chain[0].scope >= d then Outer(chain[1..], d) else chain
  }

  ghost predicate SameOuter(s: Locks, t: Locks, d: nat) {
    |t.chains| == |s.chains| && t.gl == s.gl && t.levelStart == s.levelStart &&
    d <= |s.scopes| && d <= |t.scopes| && t.scopes[..d] == s.scopes[..d] &&
    forall m: nat | m < |s.chains| :: Outer(t.chains[m], d) == Outer(s.chains[m], d)
  }

  /** Every operation of the run starts with more than d scopes on the stack. */
  predicate RunsAbove(s: Locks, ops: seq<Op>, d: nat)
    requires Inv(s)
    decreases |ops|
  {
    ops == [] || (|s.scopes| > d && (StepKeepsInv(s, ops[0]); RunsAbove(Step(s, ops[0]), ops[1..], d)))
  }

  lemma {:induction false} OuterWhole(chain: seq<Level>, d: nat)
    requires ChainOk(chain, d)
    ensures Outer(chain, d) == chain
  {
  }

  lemma {:induction false} OuterSum(chain: seq<Level>, d: nat)
    ensures Sum(Outer(chain, d)) <= Sum(chain)
  {
    if chain != [] && chain[0].scope >= d {
      OuterSum(chain[1..], d);
    }
  }

  lemma TrackKeepsOuter(s: Locks, m: nat, d: nat)
    requires ChainsOk(s) && s.scopes != [] && d < |s.scopes| && m < |s.chains|
    ensures SameOuter(s, Track(s, m), d)
  {
  }

  lemma AcquireKeepsOuter(s: Locks, m: nat, reply: Reply, d: nat)
    requires Inv(s) && d < |s.scopes| && m < |s.chains|
    ensures SameOuter(s, AcquireStep(s, m, reply).0, d)
  {
    if reply.status.Success? && !(m == s.gl && s.glHold == 0 && !reply.hardwareFree) {
      var locked := HardwareAcquired(HostAcquired(s, m), m);
      assert locked.chains == s.chains && locked.scopes == s.scopes;
      SameStructure(s, locked);
      TrackKeepsOuter(locked, m, d);
    }
  }

  lemma ReleaseKeepsOuter(s: Locks, m: nat, d: nat)
    requires Inv(s) && d < |s.scopes| && m < |s.chains|
    ensures SameOuter(s, ReleaseStep(s, m), d)
  {
  }

  lemma PopKeepsOuter(s: Locks, d: nat)
    requires Inv(s) && d < |s.scopes|
    ensures SameOuter(s, PopStep(s), d)
  {
    if CanPop(s) {
      var top := |s.scopes| - 1;
      TopDroppable(s);
      DropLevelsEffect(s, s.scopes[top]);
      DroppedKeepsOuter(s, DropLevels(s, s.scopes[top]), d);
    }
  }

  lemma DroppedKeepsOuter(s: Locks, t: Locks, d: nat)
    requires WellSized(s) && d < |s.scopes|
    requires forall m | m in s.scopes[|s.scopes| - 1] :: m < |s.chains| && HasLevel(s, m)
    requires Dropped(s, s.scopes[|s.scopes| - 1], t)
    ensures forall m: nat | m < |s.chains| :: Outer(t.chains[m], d) == Outer(s.chains[m], d)
  {
    forall m: nat | m < |s.chains|
      ensures Outer(t.chains[m], d) == Outer(s.chains[m], d)
    {
      if m in s.scopes[|s.scopes| - 1] {
        assert HasLevel(s, m);
      }
    }
  }

  /** No operation executed inside scope d or deeper touches what lies outside it. */
  lemma StepKeepsOuter(s: Locks, op: Op, d: nat)
    requires Inv(s) && d < |s.scopes|
    ensures SameOuter(s, Step(s, op), d)
  {
    match op
    case Acquire(m, reply) => if m < |s.chains| { AcquireKeepsOuter(s, m, reply, d); }
    case Release(m) => if m < |s.chains| { ReleaseKeepsOuter(s, m, d); }
    case Push =>
    case Pop => PopKeepsOuter(s, d);
  }

  lemma {:induction false} RunKeepsOuter(s: Locks, ops: seq<Op>, d: nat)
    requires Inv(s) && d <= |s.scopes| && RunsAbove(s, ops, d)
    ensures SameOuter(s, Run(s, ops), d)
    decreases |ops|
  {
    if ops != [] {
      StepKeepsInv(s, ops[0]);
      StepKeepsOuter(s, ops[0], d);
      RunKeepsOuter(Step(s, ops[0]), ops[1..], d);
    }
  }

  /** Only acquisitions of the global lock mutex are ever lost while a scope exists. */
  lemma StepLosesOnlyGlobal(s: Locks, op: Op)
    requires Inv(s) && s.scopes != []
    ensures Step(s, op).glLost == s.glLost && |Step(s, op).lost| == |s.lost| && Step(s, op).gl == s.gl
    ensures forall m: nat | m < |s.lost| && m != s.gl :: Step(s, op).lost[m] == s.lost[m]
    ensures s.lost[s.gl] <= Step(s, op).lost[s.gl]
  {
    if op.Pop? && CanPop(s) {
      TopDroppable(s);
      DropLevelsEffect(s, s.scopes[|s.scopes| - 1]);
    }
  }

  lemma {:induction false} RunLosesOnlyGlobal(s: Locks, ops: seq<Op>, d: nat)
    requires Inv(s) && RunsAbove(s, ops, d)
    ensures Run(s, ops).glLost == s.glLost && |Run(s, ops).lost| == |s.lost| && Run(s, ops).gl == s.gl
    ensures forall m: nat | m < |s.lost| && m != s.gl :: Run(s, ops).lost[m] == s.lost[m]
    ensures s.lost[s.gl] <= Run(s, ops).lost[s.gl]
    decreases |ops|
  {
    if ops != [] {
      StepKeepsInv(s, ops[0]);
      StepLosesOnlyGlobal(s, ops[0]);
      RunLosesOnlyGlobal(Step(s, ops[0]), ops[1..], d);
    }
  }

  /**
   Conservation.  Over any run, the host holds of every mutex but the global
   lock's are the acquisitions counted along its chain, and the global lock hold
   count is the count along its own chain.
   */
  lemma Conservation(s: Locks, ops: seq<Op>)
    requires Inv(s) && s.glLost == 0 && (forall m: nat | m < |s.lost| :: s.lost[m] == 0)
    requires RunsAbove(s, ops, 0)
    ensures var t := Run(s, ops);
            t.glHold == Sum(t.chains[t.gl]) &&
            (forall m: nat | m < |t.chains| && m != t.gl :: t.holds[m] == Sum(t.chains[m])) &&
            t.holds[t.gl] == Sum(t.chains[t.gl]) + t.lost[t.gl]
  {
    RunLosesOnlyGlobal(s, ops, 0);
  }

  /**
   Leaving a method scope restores what entering it found: the scope stack, every
   chain, the host holds of every other mutex and the global lock hold count.
   */
  lemma PopRestores(s: Locks, ops: seq<Op>)
    requires Inv(s) && Inv(PushStep(s)) && RunsAbove(PushStep(s), ops, |s.scopes|)
    requires |Run(PushStep(s), ops).scopes| == |s.scopes|
    ensures var t := Run(PushStep(s), ops);
            t.scopes == s.scopes && t.chains == s.chains && t.glHold == s.glHold &&
            forall m: nat | m < |s.chains| && m != s.gl :: t.holds[m] == s.holds[m]
  {
    var d, u := |s.scopes|, PushStep(s);
    var t := Run(u, ops);
    RunKeepsOuter(u, ops, d);
    RunLosesOnlyGlobal(u, ops, d);
    assert t.scopes == t.scopes[..d] == u.scopes[..d] == s.scopes;
    forall m: nat | m < |s.chains|
      ensures t.chains[m] == s.chains[m]
    {
      assert ChainOk(t.chains[m], d) && ChainOk(s.chains[m], d);
      OuterWhole(t.chains[m], d);
      OuterWhole(s.chains[m], d);
    }
    assert t.chains == s.chains;
  }

  /** At no point inside the scope has a hold of an outer scope been given up. */
  lemma InnerCannotRelease(s: Locks, ops: seq<Op>)
    requires Inv(s) && Inv(PushStep(s)) && RunsAbove(PushStep(s), ops, |s.scopes|)
    ensures var t := Run(PushStep(s), ops);
            |t.holds| == |s.holds| && t.glHold >= s.glHold &&
            (forall m: nat | m < |s.holds| :: t.holds[m] >= s.holds[m]) &&
            forall m: nat | m < |s.chains| :: Outer(t.chains[m], |s.scopes|) == s.chains[m]
  {
    var d, u := |s.scopes|, PushStep(s);
    var t := Run(u, ops);
    RunKeepsOuter(u, ops, d);
    RunLosesOnlyGlobal(u, ops, d);
    forall m: nat | m < |s.chains|
      ensures Outer(t.chains[m], d) == s.chains[m] && Sum(t.chains[m]) >= Sum(s.chains[m])
    {
      assert ChainOk(s.chains[m], d);
      OuterWhole(s.chains[m], d);
      OuterSum(t.chains[m], d);
    }
    assert HoldsOk(s) && HoldsOk(t);
    forall m: nat | m < |s.holds|
      ensures t.holds[m] >= s.holds[m]
    {
      assert Sum(t.chains[m]) >= Sum(s.chains[m]);
    }
  }

  /** The hardware lock is held exactly while the hold count is positive. */
  predicate HardwareConsistent(s: Locks) {
    s.hardware == if s.glHold > 0 then 1 else 0
  }

  /**
   A release gives the hardware lock back at every nesting level, so it keeps
   hardware and hold count consistent exactly when the hold is not nested.
   */
  lemma ReleaseHardware(s: Locks, m: nat)
    requires Inv(s) && m < |s.chains| && HardwareConsistent(s)
    ensures HardwareConsistent(ReleaseStep(s, m))
       <==> m != s.gl || !HasLevel(s, m) || s.chains[m][0].count == 0 || s.glHold <= 1
  {
  }

  lemma AcquireHardware(s: Locks, m: nat, reply: Reply)
    requires Inv(s) && m < |s.chains| && HardwareConsistent(s)
    ensures HardwareConsistent(AcquireStep(s, m, reply).0)
  {
  }

  /** A state with one scope and one mutex, the global lock's. */
  function Fresh(): (s: Locks)
    ensures Inv(s)
  {
    Locks([[]], 1, [[]], [0], [0], 0, 0, 0, 0)
  }

  /** Acquire, acquire, release: still held once, but the hardware lock is gone. */
  lemma NestedReleaseLosesHardware()
    ensures var got := Reply(Success, true);
            var t := Run(Fresh(), [Acquire(0, got), Acquire(0, got), Release(0)]);
            t.glHold == 1 && t.hardware == 0
  {
    var got := Reply(Success, true);
    RunOfThree(Fresh(), Acquire(0, got), Acquire(0, got), Release(0));
    FirstAcquired();
    SecondAcquired();
    NestedReleased();
  }

  lemma FirstAcquired()
    ensures AcquireStep(Fresh(), 0, Reply(Success, true)).0 == Locks([[0]], 1, [[Level(0, 1)]], [1], [0], 0, 1, 0, 1)
  {
    var s := HardwareAcquired(HostAcquired(Fresh(), 0), 0);
    assert [0][0 := 0 + 1] == [1];
    assert s == Locks([[]], 1, [[]], [1], [0], 0, 1, 0, 1);
    assert s.scopes[0] + [0] == [0];
    assert s.scopes[0 := [0]] == [[0]];
    assert s.chains[0 := [Level(0, 1)]] == [[Level(0, 1)]];
    assert [Level(0, 1)] + s.chains[0] == [Level(0, 1)];
  }

  lemma SecondAcquired()
    ensures AcquireStep(Locks([[0]], 1, [[Level(0, 1)]], [1], [0], 0, 1, 0, 1), 0, Reply(Success, true)).0
         == Locks([[0]], 1, [[Level(0, 2)]], [2], [0], 0, 2, 0, 1)
  {
    var s := Locks([[0]], 1, [[Level(0, 1)]], [1], [0], 0, 1, 0, 1);
    assert [1][0 := 1 + 1] == [2];
    assert [[Level(0, 1)]][0 := [Level(0, 2)]] == [[Level(0, 2)]];
    assert HardwareAcquired(HostAcquired(s, 0), 0) == Locks([[0]], 1, [[Level(0, 1)]], [2], [0], 0, 2, 0, 1);
    assert [Level(0, 2)] + [Level(0, 1)][1..] == [Level(0, 2)];
  }

  lemma NestedReleased()
    ensures ReleaseStep(Locks([[0]], 1, [[Level(0, 2)]], [2], [0], 0, 2, 0, 1), 0)
         == Locks([[0]], 1, [[Level(0, 1)]], [1], [0], 0, 1, 0, 0)
  {
    assert [Level(0, 1)] + [Level(0, 2)][1..] == [Level(0, 1)];
    assert [2][0 := 2 - 1] == [1];
  }

  lemma RunOfThree(s: Locks, a: Op, b: Op, c: Op)
    requires Inv(s)
    ensures Inv(Step(s, a)) && Inv(Step(Step(s, a), b))
    ensures Run(s, [a, b, c]) == Step(Step(Step(s, a), b), c)
  {
    RunStep(s, a, [b, c]);
    RunStep(Step(s, a), b, [c]);
    RunStep(Step(Step(s, a), b), c, []);
    assert [a, b, c] == [a] + [b, c] && [b, c] == [b] + [c] && [c] == [c] + [];
  }

  lemma RunStep(s: Locks, op: Op, ops: seq<Op>)
    requires Inv(s)
    ensures Inv(Step(s, op)) && Run(s, [op] + ops) == Run(Step(s, op), ops)
  {
    StepKeepsInv(s, op);
    assert ([op] + ops)[1..] == ops;
  }
}
