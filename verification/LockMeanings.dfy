/**
 What each mutex and scope operation does, told by its answer and its counts alone: what an acquisition
 answers, what one operation adds to or takes from the holds, and which operation undoes which.
 */
module LockMeanings {
  import opened Locks

  /** The holds of mutex m that the innermost scope has of its own. */
  function OwnCount(s: Locks, m: nat): nat
    requires m < |s.chains|
  {
    if s.scopes != [] && s.chains[m] != [] && s.chains[m][0].scope == |s.scopes| - 1 then s.chains[m][0].count else 0
  }

  /** The holds of mutex m in every scope that is still open. */
  function AllCounts(s: Locks, m: nat): nat
    requires m < |s.chains|
  {
    Sum(s.chains[m])
  }

  /** What the host answers is what the caller gets, and then nothing has changed. */
  lemma HostRefusal(s: Locks, m: nat, reply: Reply)
    requires WellSized(s) && m < |s.chains| && reply.status != Success
    ensures AcquireStep(s, m, reply) == (s, reply.status)
  {
  }

  /** An acquisition the host grants succeeds inside a method, except when the hardware lock is awaited in vain. */
  lemma AcquireAnswers(s: Locks, m: nat, reply: Reply)
    requires WellSized(s) && m < |s.chains| && reply.status == Success
    ensures AcquireStep(s, m, reply).1 ==
            if m == s.gl && s.glHold == 0 && !reply.hardwareFree then Timeout
            else if |s.scopes| == 0 then Error
            else Success
  {
  }

  /** Whatever the answer, the host holds the mutex once more if it granted it, and no other mutex. */
  lemma AcquireHolds(s: Locks, m: nat, reply: Reply, k: nat)
    requires Inv(s) && m < |s.chains| && k < |s.chains|
    ensures var t := AcquireStep(s, m, reply).0;
            |t.holds| == |s.holds| &&
            t.holds[k] == s.holds[k] + (if k == m && reply.status == Success then 1 else 0)
  {
  }

  /** A successful acquisition is the innermost scope's own, and only of that mutex. */
  lemma AcquireCounts(s: Locks, m: nat, reply: Reply, k: nat)
    requires Inv(s) && m < |s.chains| && k < |s.chains| && AcquireStep(s, m, reply).1 == Success
    ensures var t := AcquireStep(s, m, reply).0;
            |t.scopes| == |s.scopes| && |t.chains| == |s.chains| &&
            OwnCount(t, k) == OwnCount(s, k) + (if k == m then 1 else 0) &&
            AllCounts(t, k) == AllCounts(s, k) + (if k == m then 1 else 0) &&
            t.glHold == s.glHold + (if m == s.gl then 1 else 0) &&
            t.hardware == s.hardware + (if m == s.gl && s.glHold == 0 then 1 else 0)
  {
    var t := AcquireStep(s, m, reply).0;
    if k == m {
      var locked := HardwareAcquired(HostAcquired(s, m), m);
      assert locked.chains == s.chains && locked.scopes == s.scopes;
      SameStructure(s, locked);
      TrackKeeps(locked, m);
    } else {
      assert t.chains[k] == s.chains[k];
    }
  }

  /** A release gives back one hold that the innermost scope has of its own; without one it changes nothing. */
  lemma ReleaseCounts(s: Locks, m: nat, k: nat)
    requires Inv(s) && m < |s.chains| && k < |s.chains|
    ensures var t := ReleaseStep(s, m);
            var n := if k == m && OwnCount(s, m) > 0 then 1 else 0;
            |t.chains| == |s.chains| && t.scopes == s.scopes && |t.holds| == |s.holds| &&
            OwnCount(t, k) == OwnCount(s, k) - n && AllCounts(t, k) == AllCounts(s, k) - n &&
            t.holds[k] == s.holds[k] - n
    ensures OwnCount(s, m) == 0 ==> ReleaseStep(s, m) == s
    ensures ReleaseStep(s, m).glHold == s.glHold - (if m == s.gl && OwnCount(s, m) > 0 then 1 else 0)
  {
    var t := ReleaseStep(s, m);
    if OwnCount(s, m) > 0 {
      assert t.chains[m][1..] == s.chains[m][1..];
      if k != m {
        assert t.chains[k] == s.chains[k];
      }
      assert HoldsOk(s);
    }
  }

  /** Releasing what has just been acquired takes back every count; the hardware lock only if it was free before. */
  lemma ReleaseUndoesAcquire(s: Locks, m: nat, reply: Reply, k: nat)
    requires Inv(s) && m < |s.chains| && k < |s.chains| && AcquireStep(s, m, reply).1 == Success
    ensures var t := AcquireStep(s, m, reply).0;
            WellSized(t) && |t.chains| == |s.chains| &&
            var u := ReleaseStep(t, m);
            |u.chains| == |s.chains| && |u.holds| == |s.holds| && u.holds[k] == s.holds[k] &&
            OwnCount(u, k) == OwnCount(s, k) && AllCounts(u, k) == AllCounts(s, k) && u.glHold == s.glHold &&
            (u.hardware == s.hardware <==> m != s.gl || s.glHold == 0)
  {
    var t := AcquireStep(s, m, reply).0;
    AcquireKeepsInv(s, m, reply);
    AcquireHolds(s, m, reply, k);
    AcquireCounts(s, m, reply, k);
    AcquireCounts(s, m, reply, m);
    ReleaseCounts(t, m, k);
    HardwareReleased(t, m);
  }

  lemma HardwareReleased(t: Locks, m: nat)
    requires Inv(t) && m < |t.chains| && OwnCount(t, m) > 0
    ensures ReleaseStep(t, m).hardware == t.hardware - (if m == t.gl && t.glHold > 0 then 1 else 0)
  {
  }

  /** Entering a method opens a scope in which nothing is held yet, and changes nothing else. */
  lemma PushOpens(s: Locks, m: nat)
    requires Inv(s) && m < |s.chains|
    ensures var t := PushStep(s);
            |t.scopes| == |s.scopes| + 1 && t.scopes[..|s.scopes|] == s.scopes && t.scopes[|s.scopes|] == [] &&
            OwnCount(t, m) == 0 && t.(scopes := s.scopes) == s
  {
    assert ChainOk(s.chains[m], |s.scopes|);
  }

  /** Leaving one closes the innermost scope, unless it was open before the interpreter's current entry. */
  lemma PopRefusedIff(s: Locks)
    requires Inv(s)
    ensures PopStep(s) == s <==> |s.scopes| == 0 || |s.scopes| <= s.levelStart
    ensures |PopStep(s).scopes| == if |s.scopes| == 0 || |s.scopes| <= s.levelStart then |s.scopes| else |s.scopes| - 1
  {
    if CanPop(s) {
      TopDroppable(s);
      DropLevelsEffect(s, s.scopes[|s.scopes| - 1]);
    }
  }

  /** It gives back exactly the holds the scope had of its own, of every mutex. */
  lemma PopGivesBack(s: Locks, m: nat)
    requires Inv(s) && m < |s.chains| && |s.scopes| > s.levelStart
    ensures var t := PopStep(s);
            |t.chains| == |s.chains| && |t.holds| == |s.holds| && t.scopes == s.scopes[..|s.scopes| - 1] &&
            t.holds[m] == s.holds[m] - OwnCount(s, m) && AllCounts(t, m) == AllCounts(s, m) - OwnCount(s, m) &&
            t.glHold == s.glHold - OwnCount(s, s.gl)
  {
    var top := |s.scopes| - 1;
    TopDroppable(s);
    DropLevelsEffect(s, s.scopes[top]);
    PopKeepsInv(s);
    ListedIffOwn(s, m);
    ListedIffOwn(s, s.gl);
    assert HoldsOk(s) && HoldsOk(PopStep(s));
  }

  /** The innermost scope lists the mutexes that have a level in it. */
  lemma ListedIffOwn(s: Locks, m: nat)
    requires Inv(s) && s.scopes != [] && m < |s.chains|
    ensures m in s.scopes[|s.scopes| - 1] <==> HasLevel(s, m)
  {
    TopDroppable(s);
    assert HasLevel(s, m) ==> InScope(s.chains[m], |s.scopes| - 1);
  }
}
