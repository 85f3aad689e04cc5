/**
 The interpreter state behind Locks: the methods of src/aml_method.c and
 src/aml_mutex.c, each proved to be the step of the same name.
 */
module LockState {
  import opened Locks

  const NO_TIMEOUT: nat := 0xFFFF

  class LockState {
    // The method scope stack and each mutex's chain of levels.
    var scopes: seq<seq<nat>>
    var levelStart: nat
    var chains: seq<seq<Level>>
    // The global lock mutex and how often it is held.
    const globalLock: nat
    var globalLockHoldCount: nat
    // The host: holds of each host mutex, balance of the hardware lock.
    var holds: seq<int>
    var hardware: int
    // Acquisitions that were never tracked.
    ghost var lost: seq<nat>
    ghost var globalLost: nat

    ghost function Model(): Locks
      reads this
    {
      Locks(scopes, levelStart, chains, holds, lost, globalLock, globalLockHoldCount, globalLost, hardware)
    }

    constructor (mutexCount: nat, globalLock: nat)
      requires globalLock < mutexCount
      ensures Inv(Model()) && this.globalLock == globalLock
      ensures scopes == [] && |chains| == mutexCount
    {
      scopes, levelStart := [], 0;
      chains := seq(mutexCount, _ => []);
      holds := seq(mutexCount, _ => 0);
      lost := seq(mutexCount, _ => 0);
      this.globalLock, globalLockHoldCount, globalLost, hardware := globalLock, 0, 0, 0;
    }

    /** AmlMethodScopeMutexAcquire for the innermost scope. */
    method TrackAcquire(m: nat) returns (ok: bool)
      requires m < |chains|
      modifies this
      ensures ok <==> old(scopes) != []
      ensures Model() == if ok then Track(old(Model()), m) else old(Model())
    {
      if scopes == [] {
        return false;
      }
      var scope := |scopes| - 1;
      if chains[m] == [] || chains[m][0].scope != scope {
        chains := chains[m := [Level(scope, 0)] + chains[m]];
        scopes := scopes[scope := scopes[scope] + [m]];
      }
      var entry := chains[m][0];
      assert chains[m][1..] == old(if HasLevel(Model(), m) then chains[m][1..] else chains[m]);
      chains := chains[m := [entry.(count := entry.count + 1)] + chains[m][1..]];
      return true;
    }

    /** AmlMethodScopeMutexRelease for the innermost scope. */
    method TrackRelease(m: nat) returns (ok: bool)
      requires m < |chains|
      modifies `chains
      ensures ok <==> old(HasLevel(Model(), m) && chains[m][0].count > 0)
      ensures chains == if ok then old(chains[m := [chains[m][0].(count := chains[m][0].count - 1)] + chains[m][1..]])
                        else old(chains)
    {
      if scopes == [] || chains[m] == [] || chains[m][0].scope != |scopes| - 1 {
        return false;
      }
      var entry := chains[m][0];
      if entry.count == 0 {
        return false;
      }
      chains := chains[m := [entry.(count := entry.count - 1)] + chains[m][1..]];
      return true;
    }

    /**
     The wait for the hardware lock: it comes free after failedTries polls, and
     the deadline passes after deadlinePolls of them unless there is none.
     */
    method SpinForHardware(timeoutMs: nat, failedTries: nat, deadlinePolls: nat) returns (got: bool)
      ensures got <==> timeoutMs == NO_TIMEOUT || failedTries == 0 || failedTries < deadlinePolls
    {
      got := false;
      var polls := 0;
      while true
        invariant polls <= failedTries
        invariant polls > 0 ==> timeoutMs == NO_TIMEOUT || polls < deadlinePolls
        decreases failedTries - polls
      {
        if polls == failedTries {
          return true;
        }
        polls := polls + 1;
        if !(timeoutMs == NO_TIMEOUT || polls < deadlinePolls) {
          return false;
        }
      }
    }

    /** AmlMutexAcquire; hostStatus is what the host mutex answers. */
    method MutexAcquire(m: nat, timeoutMs: nat, hostStatus: Status, failedTries: nat, deadlinePolls: nat)
      returns (status: Status)
      requires WellSized(Model()) && m < |chains|
      modifies this
      ensures (Model(), status) ==
              AcquireStep(old(Model()), m,
                Reply(hostStatus, timeoutMs == NO_TIMEOUT || failedTries == 0 || failedTries < deadlinePolls))
      ensures hostStatus != Success ==> status == hostStatus && Model() == old(Model())
      ensures hostStatus == Success && m != globalLock ==> status == if old(scopes) == [] then Error else Success
      ensures hostStatus == Success && m == globalLock && old(scopes) != [] ==>
              (status == Success <==> old(globalLockHoldCount) > 0 || timeoutMs == 0xFFFF || failedTries == 0 ||
                                      failedTries < deadlinePolls) &&
              (status == Success || status == Timeout)
      ensures holds == if hostStatus == Success then old(holds)[m := old(holds)[m] + 1] else old(holds)
    {
      if hostStatus != Success {
        return hostStatus;
      }
      holds := holds[m := holds[m] + 1];
      if m == globalLock {
        if globalLockHoldCount == 0 {
          var got := SpinForHardware(timeoutMs, failedTries, deadlinePolls);
          if !got {
            lost := lost[m := lost[m] + 1];
            return Timeout;
          }
          hardware := hardware + 1;
          globalLockHoldCount := 1;
        } else {
          globalLockHoldCount := globalLockHoldCount + 1;
        }
      }
      var tracked := TrackAcquire(m);
      if !tracked {
        lost := lost[m := lost[m] + 1];
        globalLost := if m == globalLock then globalLost + 1 else globalLost;
        return Error;
      }
      return Success;
    }

    /** AmlMutexRelease. */
    method MutexRelease(m: nat)
      requires WellSized(Model()) && m < |chains|
      modifies `chains, `holds, `globalLockHoldCount, `hardware
      ensures Model() == ReleaseStep(old(Model()), m)
    {
      var tracked := TrackRelease(m);
      if !tracked {
        return;
      }
      if m == globalLock && globalLockHoldCount > 0 {
        hardware := hardware - 1;
        globalLockHoldCount := globalLockHoldCount - 1;
      }
      holds := holds[m := holds[m] - 1];
    }

    /** AmlMethodPushScope. */
    method PushScope()
      modifies `scopes
      ensures Model() == PushStep(old(Model()))
    {
      scopes := scopes + [[]];
    }

    /** AmlMethodPopScope. */
    method PopScope() returns (ok: bool)
      requires Inv(Model())
      modifies this
      ensures ok <==> old(CanPop(Model()))
      ensures Model() == PopStep(old(Model()))
    {
      if scopes == [] || |scopes| <= levelStart {
        return false;
      }
      TopDroppable(Model());
      ReleaseScope();
      scopes := scopes[..|scopes| - 1];
      return true;
    }

    /** AmlMethodScopeReleaseInternal: release every acquisition made in the innermost scope. */
    method ReleaseScope()
      requires WellSized(Model()) && HoldsOk(Model()) && scopes != []
      requires ListDroppable(Model(), scopes[|scopes| - 1])
      requires forall m: nat | m in scopes[|scopes| - 1] :: m < |chains| && HasLevel(Model(), m)
      modifies `chains, `holds, `globalLockHoldCount, `hardware
      ensures Model() == DropLevels(old(Model()), old(scopes[|scopes| - 1]))
    {
      var list := scopes[|scopes| - 1];
      var i := 0;
      ghost var start := Model();
      while i < |list|
        invariant 0 <= i <= |list|
        invariant ReleasedTo(Model(), list, i, start)
      {
        ReleaseListed(list, i, start);
        i := i + 1;
      }
    }

    method ReleaseListed(list: seq<nat>, i: nat, ghost start: Locks)
      requires i < |list| && ReleasedTo(Model(), list, i, start)
      modifies `chains, `holds, `globalLockHoldCount, `hardware
      ensures ReleasedTo(Model(), list, i + 1, start)
    {
      ghost var before := Model();
      ReleaseLevel(list[i]);
      StillListed(before, list, i, start);
    }

    /** Release all acquisitions of one mutex in the innermost scope and pop its level. */
    method ReleaseLevel(m: nat)
      requires WellSized(Model()) && HoldsOk(Model()) && m < |chains| && HasLevel(Model(), m)
      modifies `chains, `holds, `globalLockHoldCount, `hardware
      ensures Model() == DropLevel(old(Model()), m)
      ensures HoldsOk(Model())
    {
      ghost var start := Model();
      var tail := chains[m][1..];
      var acquireCount := chains[m][0].count;
      var i := 0;
      ReleasedNone(start, m);
      while i < acquireCount
        invariant 0 <= i <= acquireCount
        invariant Model() == Released(start, m, i)
      {
        MutexRelease(m);
        ReleaseAgain(start, m, i);
        i := i + 1;
      }
      chains := chains[m := tail];
      DropLevelKeepsHolds(start, m);
    }
  }

  /** The list's levels from place i on are still there, and dropping them finishes what start was to do. */
  ghost predicate ReleasedTo(s: Locks, list: seq<nat>, i: nat, start: Locks) {
    i <= |list| && WellSized(s) && HoldsOk(s) && WellSized(start) && ListDroppable(start, list) &&
    (forall k: nat | i <= k < |list| :: list[k] < |s.chains| && HasLevel(s, list[k])) &&
    ListDroppable(s, list[i..]) && DropLevels(start, list) == DropLevels(s, list[i..])
  }

  lemma StillListed(s: Locks, list: seq<nat>, i: nat, start: Locks)
    requires i < |list| && ReleasedTo(s, list, i, start) && HoldsOk(DropLevel(s, list[i]))
    ensures ReleasedTo(DropLevel(s, list[i]), list, i + 1, start)
  {
  }

  /** n releases of mutex m in the innermost scope. */
  ghost function Released(s: Locks, m: nat, n: nat): Locks
    requires WellSized(s) && HoldsOk(s) && m < |s.chains| && HasLevel(s, m) && n <= s.chains[m][0].count
  {
    var chain := s.chains[m];
    var t := s.(chains := s.chains[m := [chain[0].(count := chain[0].count - n)] + chain[1..]],
                holds := s.holds[m := s.holds[m] - n]);
    if m == s.gl then t.(glHold := s.glHold - n, hardware := s.hardware - n) else t
  }

  lemma ReleasedNone(s: Locks, m: nat)
    requires WellSized(s) && HoldsOk(s) && m < |s.chains| && HasLevel(s, m)
    ensures Released(s, m, 0) == s
  {
    var chain := s.chains[m];
    assert [chain[0].(count := chain[0].count - 0)] + chain[1..] == chain;
  }

  lemma ReleaseAgain(s: Locks, m: nat, n: nat)
    requires WellSized(s) && HoldsOk(s) && m < |s.chains| && HasLevel(s, m) && n < s.chains[m][0].count
    ensures ReleaseStep(Released(s, m, n), m) == Released(s, m, n + 1)
  {
  }
}
