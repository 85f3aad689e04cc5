/**
 Two counts that the mutex code gets wrong, exactly, over every run: the hardware global
 lock falls behind by one for every hold given back while more than one is counted, and
 the host holds of a mutex run ahead by one for every acquisition that is not tracked.
 */
module LockRuns {
  import opened Locks
  import opened LockMeanings
  import opened LockTheorems

  // -------------------------------------------------- the hardware lock

  /** How many holds of the hardware lock are missing; 0 is HardwareConsistent. */
  function Missing(s: Locks): int {
    (if s.glHold > 0 then 1 else 0) - s.hardware
  }

  /** The holds of the global lock that the innermost scope has of its own. */
  function OwnHolds(s: Locks): nat
    requires WellSized(s)
  {
    OwnCount(s, s.gl)
  }

  /** The holds of the global lock given back by the operation. */
  function GivenBack(s: Locks, op: Op): nat
    requires WellSized(s)
  {
    match op
    case Release(m) => if m == s.gl && OwnHolds(s) > 0 then 1 else 0
    case Pop => if CanPop(s) then OwnHolds(s) else 0
    case _ => 0
  }

  /** Those of them given back while the hold count is above 1. */
  function NestedlyGiven(s: Locks, op: Op): nat
    requires WellSized(s)
  {
    if GivenBack(s, op) == s.glHold && s.glHold > 0 then GivenBack(s, op) - 1 else GivenBack(s, op)
  }

  function NestedlyGivenIn(s: Locks, ops: seq<Op>): nat
    requires Inv(s)
    decreases |ops|
  {
    if ops == [] then 0
    else
      StepKeepsInv(s, ops[0]);
      NestedlyGiven(s, ops[0]) + NestedlyGivenIn(Step(s, ops[0]), ops[1..])
  }

  lemma {:induction false} DropLevelsHardware(s: Locks, list: seq<nat>)
    requires WellSized(s) && ListDroppable(s, list) && HoldsOk(s)
    ensures var n := if s.gl in list then s.chains[s.gl][0].count else 0;
            n <= s.glHold &&
            DropLevels(s, list).glHold == s.glHold - n && DropLevels(s, list).hardware == s.hardware - n
    decreases |list|
  {
    if list != [] {
      var m := list[0];
      var t := DropLevel(s, m);
      DropLevelKeepsHolds(s, m);
      assert forall i: nat | i < |list[1..]| ::
          list[1..][i] == list[i + 1] && t.chains[list[i + 1]] == s.chains[list[i + 1]];
      DropLevelsHardware(t, list[1..]);
      assert m !in list[1..];
      assert s.gl in list <==> s.gl == m || s.gl in list[1..];
    }
  }

  lemma PopHardware(s: Locks)
    requires Inv(s)
    ensures Missing(PopStep(s)) == Missing(s) + NestedlyGiven(s, Pop)
  {
    if CanPop(s) {
      TopDroppable(s);
      ListedIffOwn(s, s.gl);
      DropLevelsHardware(s, s.scopes[|s.scopes| - 1]);
    }
  }

  lemma StepHardware(s: Locks, op: Op)
    requires Inv(s)
    ensures Missing(Step(s, op)) == Missing(s) + NestedlyGiven(s, op)
  {
    if op.Pop? {
      PopHardware(s);
    } else if op.Release? && op.mutex < |s.chains| {
      assert HoldsOk(s);
      assert HasLevel(s, s.gl) ==> Sum(s.chains[s.gl]) >= s.chains[s.gl][0].count;
    }
  }

  /** Over every run the missing hardware holds are exactly those given back nestedly. */
  lemma {:induction false} MissingExact(s: Locks, ops: seq<Op>)
    requires Inv(s)
    ensures Missing(Run(s, ops)) == Missing(s) + NestedlyGivenIn(s, ops)
    decreases |ops|
  {
    if ops != [] {
      StepKeepsInv(s, ops[0]);
      StepHardware(s, ops[0]);
      MissingExact(Step(s, ops[0]), ops[1..]);
    }
  }

  /** Some operation of the run gives back a hold while the hold count is above 1. */
  predicate GivesBackNested(s: Locks, ops: seq<Op>)
    requires Inv(s)
    decreases |ops|
  {
    ops != [] &&
    ((GivenBack(s, ops[0]) > 0 && s.glHold > 1) ||
     (StepKeepsInv(s, ops[0]); GivesBackNested(Step(s, ops[0]), ops[1..])))
  }

  lemma OwnWithinHold(s: Locks)
    requires Inv(s)
    ensures OwnHolds(s) <= s.glHold
  {
    assert HoldsOk(s);
  }

  lemma {:induction false} NestedlyGivenIff(s: Locks, ops: seq<Op>)
    requires Inv(s)
    ensures NestedlyGivenIn(s, ops) > 0 <==> GivesBackNested(s, ops)
    decreases |ops|
  {
    if ops != [] {
      OwnWithinHold(s);
      StepKeepsInv(s, ops[0]);
      NestedlyGivenIff(Step(s, ops[0]), ops[1..]);
    }
  }

  /**
   From a consistent state, hardware and hold count agree after a run exactly if no
   release and no scope exit in it gave back a hold while the hold count was above 1.
   */
  lemma HardwareAgreesIff(s: Locks, ops: seq<Op>)
    requires Inv(s) && HardwareConsistent(s)
    ensures HardwareConsistent(Run(s, ops)) <==> !GivesBackNested(s, ops)
  {
    MissingExact(s, ops);
    NestedlyGivenIff(s, ops);
  }

  /** Once the hardware lock is behind, no run brings it back. */
  lemma NeverComesBack(s: Locks, ops: seq<Op>)
    requires Inv(s) && s.hardware < (if s.glHold > 0 then 1 else 0)
    ensures !HardwareConsistent(Run(s, ops)) && Missing(Run(s, ops)) >= Missing(s)
  {
    MissingExact(s, ops);
  }

  /**
   Leaving a scope keeps them consistent exactly if the scope holds nothing of the global
   lock or its one hold is the only one.
   */
  lemma PopHardwareIff(s: Locks)
    requires Inv(s) && HardwareConsistent(s)
    ensures HardwareConsistent(PopStep(s)) <==> !CanPop(s) || OwnHolds(s) == 0 || s.glHold <= 1
  {
    PopHardware(s);
    OwnWithinHold(s);
  }

  // ---------------------------------------------- untracked acquisitions

  /**
   The host gives mutex m, but no level counts it: there is no scope, or m is the global
   lock's and its hardware lock does not come free in time.
   */
  predicate Untracked(s: Locks, op: Op, m: nat) {
    op.Acquire? && op.mutex == m && op.reply.status.Success? &&
    (s.scopes == [] || (m == s.gl && s.glHold == 0 && !op.reply.hardwareFree))
  }

  function UntrackedIn(s: Locks, ops: seq<Op>, m: nat): nat
    requires Inv(s)
    decreases |ops|
  {
    if ops == [] then 0
    else
      StepKeepsInv(s, ops[0]);
      (if Untracked(s, ops[0], m) then 1 else 0) + UntrackedIn(Step(s, ops[0]), ops[1..], m)
  }

  lemma StepLoses(s: Locks, op: Op, m: nat)
    requires Inv(s) && m < |s.chains|
    ensures |Step(s, op).lost| == |s.lost|
    ensures Step(s, op).lost[m] == s.lost[m] + if Untracked(s, op, m) then 1 else 0
  {
    if op.Pop? && CanPop(s) {
      TopDroppable(s);
      DropLevelsEffect(s, s.scopes[|s.scopes| - 1]);
    }
  }

  lemma {:induction false} RunLoses(s: Locks, ops: seq<Op>, m: nat)
    requires Inv(s) && m < |s.chains|
    ensures |Run(s, ops).lost| == |s.lost| && Run(s, ops).lost[m] == s.lost[m] + UntrackedIn(s, ops, m)
    decreases |ops|
  {
    if ops != [] {
      StepKeepsInv(s, ops[0]);
      StepLoses(s, ops[0], m);
      RunLoses(Step(s, ops[0]), ops[1..], m);
    }
  }

  /** The host holds of a mutex that no level of its chain accounts for. */
  function Excess(s: Locks, m: nat): int
    requires WellSized(s) && m < |s.chains|
  {
    s.holds[m] - Sum(s.chains[m])
  }

  /** Over every run the host holds run ahead of the counts by the untracked acquisitions. */
  lemma ExcessExact(s: Locks, ops: seq<Op>, m: nat)
    requires Inv(s) && m < |s.chains|
    ensures m < |Run(s, ops).chains| && Excess(Run(s, ops), m) == Excess(s, m) + UntrackedIn(s, ops, m)
  {
    RunLoses(s, ops, m);
    assert HoldsOk(s) && HoldsOk(Run(s, ops));
  }

  /** Some operation of the run gets the host mutex of the global lock but not its hardware lock. */
  predicate TimesOut(s: Locks, ops: seq<Op>)
    requires Inv(s)
    decreases |ops|
  {
    ops != [] &&
    ((ops[0].Acquire? && ops[0].mutex == s.gl && ops[0].reply.status.Success? && s.glHold == 0 &&
      !ops[0].reply.hardwareFree) ||
     (StepKeepsInv(s, ops[0]); TimesOut(Step(s, ops[0]), ops[1..])))
  }

  lemma {:induction false} TimesOutIff(s: Locks, ops: seq<Op>)
    requires Inv(s) && RunsAbove(s, ops, 0)
    ensures UntrackedIn(s, ops, s.gl) > 0 <==> TimesOut(s, ops)
    decreases |ops|
  {
    if ops != [] {
      StepKeepsInv(s, ops[0]);
      StepLosesOnlyGlobal(s, ops[0]);
      TimesOutIff(Step(s, ops[0]), ops[1..]);
    }
  }

  /**
   In a run inside scopes the host holds of the global lock mutex are those its chain
   counts exactly if no acquisition of it timed out on the hardware lock.
   */
  lemma GlobalHoldsIff(s: Locks, ops: seq<Op>)
    requires Inv(s) && s.holds[s.gl] == Sum(s.chains[s.gl]) && RunsAbove(s, ops, 0)
    ensures var t := Run(s, ops);
            t.gl == s.gl && (t.holds[t.gl] == Sum(t.chains[t.gl]) <==> !TimesOut(s, ops))
  {
    ExcessExact(s, ops, s.gl);
    TimesOutIff(s, ops);
    RunLosesOnlyGlobal(s, ops, 0);
  }

  /**
   A method tries to take the global lock, is told that the attempt timed out, and
   returns.  No scope counts a hold any more, and the host mutex stays held for ever.
   */
  lemma TimedOutAcquireIsKept()
    ensures var late := Reply(Success, false);
            var t := Run(Fresh(), [Push, Acquire(0, late), Pop]);
            t.scopes == Fresh().scopes && t.chains[0] == [] && t.holds[0] == 1
    ensures AcquireStep(PushStep(Fresh()), 0, Reply(Success, false)).1 == Timeout
  {
    var late := Reply(Success, false);
    RunOfThree(Fresh(), Push, Acquire(0, late), Pop);
    var a := Locks([[], []], 1, [[]], [0], [0], 0, 0, 0, 0);
    assert PushStep(Fresh()) == a;
    LateStep();
    var b := AcquireStep(a, 0, late).0;
    assert DropLevels(b, []) == b;
    assert b.scopes[..1] == [[]];
  }

  lemma LateStep()
    ensures AcquireStep(Locks([[], []], 1, [[]], [0], [0], 0, 0, 0, 0), 0, Reply(Success, false)) ==
            (Locks([[], []], 1, [[]], [1], [1], 0, 0, 0, 0), Timeout)
  {
    assert [0][0 := 0 + 1] == [1];
  }
}
