/**
 Method scopes and the mutexes acquired in them (src/aml_method.c,
 src/aml_mutex.c), as a transition system over a value.

 Each mutex has a chain of levels, innermost scope first; a level counts the
 acquisitions made in one method scope.  Each scope lists the mutexes that have a
 level in it.  The host side counts how often each host mutex is held and the
 balance of hardware global lock acquisitions and releases.
 */
module Locks {

  datatype Level = Level(scope: nat, count: nat)

  /**
   scopes: the scope stack, outermost first, each with its list of mutexes.
   lost:   host acquisitions that were never tracked (see Acquire).
   */
  datatype Locks = Locks(
    scopes: seq<seq<nat>>, levelStart: nat, chains: seq<seq<Level>>,
    holds: seq<int>, lost: seq<nat>,
    gl: nat, glHold: nat, glLost: nat, hardware: int)

  datatype Status = Success | Timeout | Error

  /** What the host answers: whether the mutex was got, and whether the hardware lock came free in time. */
  datatype Reply = Reply(status: Status, hardwareFree: bool)

  datatype Op = Acquire(mutex: nat, reply: Reply) | Release(mutex: nat) | Push | Pop

  // ------------------------------------------------------------- steps

  predicate HasLevel(s: Locks, m: nat)
    requires m < |s.chains|
  {
    s.scopes != [] && s.chains[m] != [] && s.chains[m][0].scope == |s.scopes| - 1
  }

  /** AmlMethodScopeMutexAcquire. */
  function Track(s: Locks, m: nat): Locks
    requires s.scopes != [] && m < |s.chains|
  {
    var top, chain := |s.scopes| - 1, s.chains[m];
    if HasLevel(s, m) then
      s.(chains := s.chains[m := [chain[0].(count := chain[0].count + 1)] + chain[1..]])
    else
      s.(chains := s.chains[m := [Level(top, 1)] + chain],
         scopes := s.scopes[top := s.scopes[top] + [m]])
  }

  predicate WellSized(s: Locks) {
    |s.holds| == |s.chains| == |s.lost| && s.gl < |s.chains|
  }

  function HostAcquired(s: Locks, m: nat): Locks
    requires WellSized(s) && m < |s.chains|
  {
    s.(holds := s.holds[m := s.holds[m] + 1])
  }

  /** For the global lock mutex: the first hold takes the hardware lock, later ones only count. */
  function HardwareAcquired(s: Locks, m: nat): Locks {
    if m != s.gl then s
    else if s.glHold == 0 then s.(glHold := 1, hardware := s.hardware + 1)
    else s.(glHold := s.glHold + 1)
  }

  /**
   AmlMutexAcquire.  When the hardware lock cannot be had in time the host mutex
   stays held although the acquisition is reported as timed out, and nothing is
   tracked when no method scope exists.
   */
  function AcquireStep(s: Locks, m: nat, reply: Reply): (r: (Locks, Status))
    requires WellSized(s) && m < |s.chains|
  {
    if !reply.status.Success? then (s, reply.status)
    else if m == s.gl && s.glHold == 0 && !reply.hardwareFree then
      (HostAcquired(s, m).(lost := s.lost[m := s.lost[m] + 1]), Timeout)
    else
      var locked := HardwareAcquired(HostAcquired(s, m), m);
      if s.scopes == [] then
        (locked.(lost := s.lost[m := s.lost[m] + 1], glLost := if m == s.gl then s.glLost + 1 else s.glLost), Error)
      else
        (Track(locked, m), Success)
  }

  /** AmlMutexRelease: refused unless the innermost scope itself holds the mutex. */
  function ReleaseStep(s: Locks, m: nat): Locks
    requires WellSized(s) && m < |s.chains|
  {
    if !HasLevel(s, m) || s.chains[m][0].count == 0 then s
    else
      var chain := s.chains[m];
      var t := s.(chains := s.chains[m := [chain[0].(count := chain[0].count - 1)] + chain[1..]],
                  holds := s.holds[m := s.holds[m] - 1]);
      if m == s.gl && s.glHold > 0 then t.(glHold := s.glHold - 1, hardware := s.hardware - 1) else t
  }

  function PushStep(s: Locks): Locks {
    s.(scopes := s.scopes + [[]])
  }

  /** Give back everything mutex m holds in its innermost level, and drop the level. */
  function DropLevel(s: Locks, m: nat): Locks
    requires WellSized(s) && m < |s.chains| && s.chains[m] != []
  {
    var n := s.chains[m][0].count;
    var t := s.(chains := s.chains[m := s.chains[m][1..]], holds := s.holds[m := s.holds[m] - n]);
    if m == s.gl then
      var k := if n < s.glHold then n else s.glHold;
      t.(glHold := s.glHold - k, hardware := s.hardware - k)
    else t
  }

  predicate ListDroppable(s: Locks, list: seq<nat>) {
    (forall i: nat | i < |list| :: list[i] < |s.chains| && s.chains[list[i]] != []) &&
    forall i: nat, j: nat | i < j < |list| :: list[i] != list[j]
  }

  /** AmlMethodScopeReleaseInternal: every mutex listed by the scope, in order. */
  function DropLevels(s: Locks, list: seq<nat>): (t: Locks)
    requires WellSized(s) && ListDroppable(s, list)
    ensures WellSized(t) && |t.chains| == |s.chains| && t.scopes == s.scopes
    decreases |list|
  {
    if list == [] then s
    else
      var t := DropLevel(s, list[0]);
      assert forall i: nat | i < |list[1..]| ::
          list[1..][i] == list[i + 1] && t.chains[list[i + 1]] == s.chains[list[i + 1]];
      DropLevels(t, list[1..])
  }

  predicate CanPop(s: Locks) {
    s.scopes != [] && |s.scopes| > s.levelStart
  }

  /** AmlMethodPopScope. */
  function PopStep(s: Locks): Locks
    requires Inv(s)
  {
    if !CanPop(s) then s
    else
      TopDroppable(s);
      var t := DropLevels(s, s.scopes[|s.scopes| - 1]);
      t.(scopes := s.scopes[..|s.scopes| - 1])
  }

  function Step(s: Locks, op: Op): Locks
    requires Inv(s)
  {
    match op
    case Acquire(m, reply) => if m < |s.chains| then AcquireStep(s, m, reply).0 else s
    case Release(m) => if m < |s.chains| then ReleaseStep(s, m) else s
    case Push => PushStep(s)
    case Pop => PopStep(s)
  }

  function Run(s: Locks, ops: seq<Op>): (t: Locks)
    requires Inv(s)
    ensures Inv(t)
    decreases |ops|
  {
    if ops == [] then s
    else
      StepKeepsInv(s, ops[0]);
      Run(Step(s, ops[0]), ops[1..])
  }

  // ---------------------------------------------------------- invariant

  /** Levels of one chain: one per scope, innermost first, all below depth. */
  predicate ChainOk(chain: seq<Level>, depth: nat) {
    chain == [] || (chain[0].scope < depth && ChainOk(chain[1..], chain[0].scope))
  }

  function Sum(chain: seq<Level>): nat {
    if chain == [] then 0 else chain[0].count + Sum(chain[1..])
  }

  predicate InScope(chain: seq<Level>, scope: nat) {
    chain != [] && (chain[0].scope == scope || InScope(chain[1..], scope))
  }

  predicate NoDuplicates(list: seq<nat>) {
    forall i: nat, j: nat | i < j < |list| :: list[i] != list[j]
  }

  /** A scope lists a mutex, once, exactly when the mutex has a level in the scope. */
  predicate ListsOk(s: Locks) {
    (forall d: nat | d < |s.scopes| :: NoDuplicates(s.scopes[d])) &&
    (forall d: nat, i: nat | d < |s.scopes| && i < |s.scopes[d]| ::
       s.scopes[d][i] < |s.chains| && InScope(s.chains[s.scopes[d][i]], d)) &&
    forall m: nat, d: nat | m < |s.chains| && d < |s.scopes| && InScope(s.chains[m], d) :: m in s.scopes[d]
  }

  predicate ChainsOk(s: Locks) {
    forall m: nat | m < |s.chains| :: ChainOk(s.chains[m], |s.scopes|)
  }

  /** Host holds are the tracked acquisitions plus the lost ones. */
  predicate HoldsOk(s: Locks)
    requires WellSized(s)
  {
    (forall m: nat | m < |s.chains| :: s.holds[m] == Sum(s.chains[m]) + s.lost[m]) &&
    s.glHold == Sum(s.chains[s.gl]) + s.glLost
  }

  predicate Inv(s: Locks) {
    WellSized(s) && ChainsOk(s) && ListsOk(s) && HoldsOk(s)
  }

  lemma {:induction false} BelowDepth(chain: seq<Level>, depth: nat, scope: nat)
    requires ChainOk(chain, depth) && InScope(chain, scope)
    ensures scope < depth
    ensures scope + 1 == depth ==> chain[0].scope == scope
  {
    if chain[0].scope != scope {
      BelowDepth(chain[1..], chain[0].scope, scope);
    }
  }

  lemma TopDroppable(s: Locks)
    requires Inv(s) && s.scopes != []
    ensures ListDroppable(s, s.scopes[|s.scopes| - 1])
    ensures forall m | m in s.scopes[|s.scopes| - 1] :: m < |s.chains| && HasLevel(s, m)
  {
    var d := |s.scopes| - 1;
    forall i: nat | i < |s.scopes[d]|
      ensures s.scopes[d][i] < |s.chains| && HasLevel(s, s.scopes[d][i])
    {
      var m := s.scopes[d][i];
      BelowDepth(s.chains[m], |s.scopes|, d);
    }
    assert NoDuplicates(s.scopes[d]);
  }

  // ------------------------------------------------------- invariance

  lemma {:induction false} DeepenChain(chain: seq<Level>, depth: nat)
    requires ChainOk(chain, depth)
    ensures ChainOk(chain, depth + 1)
  {
  }

  lemma TrackKeeps(s: Locks, m: nat)
    requires WellSized(s) && ChainsOk(s) && ListsOk(s) && s.scopes != [] && m < |s.chains|
    ensures ChainsOk(Track(s, m)) && ListsOk(Track(s, m))
    ensures Sum(Track(s, m).chains[m]) == Sum(s.chains[m]) + 1
  {
    var t, top := Track(s, m), |s.scopes| - 1;
    var chain := s.chains[m];
    if HasLevel(s, m) {
      assert t.chains[m][1..] == chain[1..];
      SameScopes(s, t, m);
    } else {
      assert t.chains[m][1..] == chain;
      NewLevel(s, t, m);
    }
  }

  /** Changing only the count of a mutex's innermost level. */
  lemma SameScopes(s: Locks, t: Locks, m: nat)
    requires ChainsOk(s) && ListsOk(s) && m < |s.chains| && s.chains[m] != []
    requires |t.chains| == |s.chains| && t.scopes == s.scopes
    requires t.chains[m] != [] && t.chains[m][0].scope == s.chains[m][0].scope && t.chains[m][1..] == s.chains[m][1..]
    requires forall k: nat | k < |s.chains| && k != m :: t.chains[k] == s.chains[k]
    ensures ChainsOk(t) && ListsOk(t)
  {
    forall k: nat | k < |s.chains|
      ensures ChainOk(t.chains[k], |t.scopes|)
      ensures forall d: nat :: InScope(t.chains[k], d) == InScope(s.chains[k], d)
    {
      assert ChainOk(s.chains[k], |s.scopes|);
    }
  }

  /** Opening a level for m in the innermost scope. */
  lemma NewLevel(s: Locks, t: Locks, m: nat)
    requires ChainsOk(s) && ListsOk(s) && s.scopes != [] && m < |s.chains| && !HasLevel(s, m)
    requires t.scopes == s.scopes[|s.scopes| - 1 := s.scopes[|s.scopes| - 1] + [m]]
    requires t.chains == s.chains[m := [Level(|s.scopes| - 1, 1)] + s.chains[m]]
    ensures ChainsOk(t) && ListsOk(t)
  {
    var top := |s.scopes| - 1;
    var chain := s.chains[m];
    assert ChainOk(chain, |s.scopes|);
    assert t.chains[m][1..] == chain;
    assert forall d: nat :: InScope(t.chains[m], d) == (d == top || InScope(chain, d));
    if InScope(chain, top) {
      BelowDepth(chain, |s.scopes|, top);
    }
    assert m !in s.scopes[top];
    forall d: nat | d < |s.scopes|
      ensures NoDuplicates(t.scopes[d])
    {
      assert NoDuplicates(s.scopes[d]);
    }
    forall k: nat | k < |s.chains|
      ensures ChainOk(t.chains[k], |t.scopes|)
    {
      assert ChainOk(s.chains[k], |s.scopes|);
    }
  }

  lemma SameStructure(s: Locks, t: Locks)
    requires ChainsOk(s) && ListsOk(s) && t.scopes == s.scopes && t.chains == s.chains
    ensures ChainsOk(t) && ListsOk(t)
  {
  }

  lemma AcquireKeepsInv(s: Locks, m: nat, reply: Reply)
    requires Inv(s) && m < |s.chains|
    ensures Inv(AcquireStep(s, m, reply).0)
  {
    if reply.status.Success? {
      var (t, status) := AcquireStep(s, m, reply);
      if status.Success? {
        AcquireTracks(s, m, reply);
      } else {
        SameStructure(s, t);
        assert t.chains == s.chains;
      }
    }
  }

  lemma AcquireTracks(s: Locks, m: nat, reply: Reply)
    requires Inv(s) && m < |s.chains| && AcquireStep(s, m, reply).1.Success?
    ensures Inv(AcquireStep(s, m, reply).0)
  {
    var locked := HardwareAcquired(HostAcquired(s, m), m);
    assert locked.chains == s.chains && locked.scopes == s.scopes;
    SameStructure(s, locked);
    TrackKeeps(locked, m);
    TrackedHolds(s, locked, m);
  }

  lemma TrackedHolds(s: Locks, locked: Locks, m: nat)
    requires WellSized(s) && HoldsOk(s) && m < |s.chains| && s.scopes != []
    requires locked == HardwareAcquired(HostAcquired(s, m), m)
    requires Sum(Track(locked, m).chains[m]) == Sum(s.chains[m]) + 1
    ensures WellSized(Track(locked, m)) && HoldsOk(Track(locked, m))
  {
    var t := Track(locked, m);
    forall k: nat | k < |t.chains|
      ensures t.holds[k] == Sum(t.chains[k]) + t.lost[k]
    {
      assert s.holds[k] == Sum(s.chains[k]) + s.lost[k];
      if k != m {
        assert t.chains[k] == s.chains[k];
      }
    }
  }

  lemma ReleaseKeepsInv(s: Locks, m: nat)
    requires Inv(s) && m < |s.chains|
    ensures Inv(ReleaseStep(s, m))
  {
    var t := ReleaseStep(s, m);
    if HasLevel(s, m) && s.chains[m][0].count > 0 {
      assert t.chains[m][1..] == s.chains[m][1..];
      SameScopes(s, t, m);
    }
  }

  lemma PushKeepsInv(s: Locks)
    requires Inv(s)
    ensures Inv(PushStep(s))
  {
    var t, top := PushStep(s), |s.scopes|;
    forall m: nat | m < |s.chains|
      ensures ChainOk(t.chains[m], |t.scopes|) && !InScope(t.chains[m], top)
    {
      assert ChainOk(s.chains[m], |s.scopes|);
      DeepenChain(s.chains[m], |s.scopes|);
      if InScope(s.chains[m], top) {
        BelowDepth(s.chains[m], |s.scopes|, top);
      }
    }
    forall d: nat | d < |t.scopes|
      ensures NoDuplicates(t.scopes[d])
    {
      if d < top {
        assert NoDuplicates(s.scopes[d]);
      }
    }
  }

  /** What dropping a list of levels does: one level less for each listed mutex, nothing else. */
  ghost predicate Dropped(s: Locks, list: seq<nat>, t: Locks)
    requires WellSized(s)
  {
    WellSized(t) && |t.chains| == |s.chains| && t.scopes == s.scopes && t.levelStart == s.levelStart &&
    t.lost == s.lost && t.gl == s.gl && t.glLost == s.glLost &&
    (forall m: nat | m < |s.chains| ::
       t.chains[m] == if m in list && s.chains[m] != [] then s.chains[m][1..] else s.chains[m])
  }

  lemma {:induction false} DropLevelsEffect(s: Locks, list: seq<nat>)
    requires WellSized(s) && ListDroppable(s, list) && HoldsOk(s)
    ensures Dropped(s, list, DropLevels(s, list))
    ensures HoldsOk(DropLevels(s, list))
    decreases |list|
  {
    if list != [] {
      var m := list[0];
      var t := DropLevel(s, m);
      DropLevelKeepsHolds(s, m);
      assert forall i: nat | i < |list[1..]| ::
          list[1..][i] == list[i + 1] && t.chains[list[i + 1]] == s.chains[list[i + 1]];
      DropLevelsEffect(t, list[1..]);
      DroppedFirst(s, list, DropLevels(t, list[1..]));
    }
  }

  /** Dropping the first level and then the others is dropping all. */
  lemma DroppedFirst(s: Locks, list: seq<nat>, t: Locks)
    requires WellSized(s) && ListDroppable(s, list) && list != [] && Dropped(DropLevel(s, list[0]), list[1..], t)
    ensures Dropped(s, list, t)
  {
    var m := list[0];
    assert forall i: nat | i < |list[1..]| :: list[1..][i] == list[i + 1];
    assert m !in list[1..];
    assert forall k: nat :: k in list <==> k == m || k in list[1..];
  }

  lemma DropLevelKeepsHolds(s: Locks, m: nat)
    requires WellSized(s) && m < |s.chains| && s.chains[m] != [] && HoldsOk(s)
    ensures HoldsOk(DropLevel(s, m))
  {
  }

  lemma {:induction false} ShrinkChain(chain: seq<Level>, depth: nat)
    requires ChainOk(chain, depth + 1) && !InScope(chain, depth)
    ensures ChainOk(chain, depth)
  {
  }

  /** The chain of mutex m once the innermost scope is gone. */
  lemma PoppedChain(s: Locks, m: nat)
    requires Inv(s) && s.scopes != [] && m < |s.chains|
    ensures var top := |s.scopes| - 1;
            var rest := if m in s.scopes[top] && s.chains[m] != [] then s.chains[m][1..] else s.chains[m];
            ChainOk(rest, top) && forall d: nat | d < top :: InScope(rest, d) == InScope(s.chains[m], d)
  {
    var top := |s.scopes| - 1;
    assert ChainOk(s.chains[m], |s.scopes|);
    if m in s.scopes[top] {
      TopDroppable(s);
      assert HasLevel(s, m);
    } else {
      ShrinkChain(s.chains[m], top);
    }
  }

  lemma PopKeepsInv(s: Locks)
    requires Inv(s)
    ensures Inv(PopStep(s))
  {
    if CanPop(s) {
      var top := |s.scopes| - 1;
      TopDroppable(s);
      DropLevelsEffect(s, s.scopes[top]);
      var t := PopStep(s);
      forall m: nat | m < |s.chains|
        ensures ChainOk(t.chains[m], top)
        ensures forall d: nat | d < top :: InScope(t.chains[m], d) == InScope(s.chains[m], d)
      {
        PoppedChain(s, m);
      }
      forall d: nat | d < |t.scopes|
        ensures NoDuplicates(t.scopes[d]) && t.scopes[d] == s.scopes[d]
      {
        assert NoDuplicates(s.scopes[d]);
      }
    }
  }

  lemma StepKeepsInv(s: Locks, op: Op)
    requires Inv(s)
    ensures Inv(Step(s, op))
  {
    match op
    case Acquire(m, reply) => if m < |s.chains| { AcquireKeepsInv(s, m, reply); }
    case Release(m) => if m < |s.chains| { ReleaseKeepsInv(s, m); }
    case Push => PushKeepsInv(s);
    case Pop => PopKeepsInv(s);
  }
}
