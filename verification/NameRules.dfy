/**
 What the namespace index has to agree with: the set of live absolute paths, the
 search rules of section 5.3 of ACPI 6.5 over that set, and the runs of creations
 and releases that produce it.
 */
module NameRules {
  import opened Hash
  import opened NamePaths

  /** The last segment of a path, zero when there is none. */
  function Local(p: Name): Seg {
    if p.segments == [] then 0 else p.segments[|p.segments| - 1]
  }

  function ParentSegments(p: Name): seq<Seg>
    requires p.segments != []
  {
    p.segments[..|p.segments| - 1]
  }

  function Prefix(p: Name, k: nat): Name
    requires k <= |p.segments|
  {
    Name(p.prefix, p.segments[..k])
  }

  /** The path of n in the ancestor of the scope that has k segments. */
  function Under(scope: Name, n: Seg, k: nat): Name
    requires k <= |scope.segments|
  {
    Name(scope.prefix, scope.segments[..k] + [n])
  }

  // -------------------------------------------------------------- runs

  datatype Op = Create(scope: Name, name: Name) | Release(path: Name)

  ghost predicate HashFree(live: set<Name>, p: Name) {
    forall q :: q in live ==> PathHash(q.segments) != PathHash(p.segments)
  }

  /** A creation succeeds when the name resolves and no live path has its hash. */
  ghost predicate Creates(live: set<Name>, scope: Name, name: Name) {
    Resolve(scope, name).Some? && HashFree(live, Resolve(scope, name).value)
  }

  ghost function Step(live: set<Name>, op: Op): set<Name> {
    match op
    case Create(scope, name) => if Creates(live, scope, name) then live + {Resolve(scope, name).value} else live
    case Release(path) => live - {path}
  }

  ghost function Run(live: set<Name>, ops: seq<Op>): set<Name>
    decreases |ops|
  {
    if ops == [] then live else Run(Step(live, ops[0]), ops[1..])
  }

  /** No two live paths share a hash. */
  ghost predicate Distinct(live: set<Name>) {
    forall p, q :: p in live && q in live && PathHash(p.segments) == PathHash(q.segments) ==> p == q
  }

  lemma {:induction false} RunKeepsDistinct(live: set<Name>, ops: seq<Op>)
    requires Distinct(live)
    ensures Distinct(Run(live, ops))
    decreases |ops|
  {
    if ops != [] {
      RunKeepsDistinct(Step(live, ops[0]), ops[1..]);
    }
  }

  /**
   Siblings are never refused as collisions: when the live paths are pairwise distinct
   in hash, a new child of p is refused because of another child of p only if it is that child.
   */
  lemma SiblingsNeverRefused(p: Name, a: Seg, b: Seg)
    ensures PathHash(p.segments + [a]) == PathHash(p.segments + [b]) <==> a == b
  {
    if a != b {
      NearPathsNeverCollide(p.segments, a, b, []);
      assert p.segments + [a] + [] == p.segments + [a] && p.segments + [b] + [] == p.segments + [b];
    }
  }

  /** Same-named children of two siblings are never refused because of each other either. */
  lemma CousinsNeverRefused(p: Name, a: Seg, b: Seg, n: Seg)
    requires a != b
    ensures PathHash(p.segments + [a] + [n]) != PathHash(p.segments + [b] + [n])
  {
    NearPathsNeverCollide(p.segments, a, b, [n]);
  }

  // ------------------------------------------------------- search rules

  /** What the search at the root compares: the hash and the last segment, not the path. */
  ghost predicate RootHit(live: set<Name>, n: Seg, p: Name) {
    p in live && Local(p) == n && PathHash(p.segments) == HashKey(n, HASH_SEED)
  }

  /** r is what the loop over the scope's ancestors finds from the one with k segments down to the one with low. */
  ghost predicate FindsUpward(live: set<Name>, scope: Name, n: Seg, k: nat, low: nat, r: Option<Name>)
    requires low <= k <= |scope.segments|
    decreases k
  {
    if k == 0 then
      match r
      case Some(p) => RootHit(live, n, p)
      case None => forall p :: !RootHit(live, n, p)
    else if Under(scope, n, k) in live then r == Some(Under(scope, n, k))
    else if k == low then r == None
    else FindsUpward(live, scope, n, k - 1, low, r)
  }

  /** The rule of section 5.3: the live path at the longest prefix of the scope. */
  function LongestPrefix(live: set<Name>, scope: Name, n: Seg, k: nat): Option<Name>
    requires k <= |scope.segments|
    decreases k
  {
    if Under(scope, n, k) in live then Some(Under(scope, n, k))
    else if k == 0 then None
    else LongestPrefix(live, scope, n, k - 1)
  }

  lemma {:induction false} LongestPrefixIsLongest(live: set<Name>, scope: Name, n: Seg, k: nat, m: nat)
    requires m <= k <= |scope.segments|
    ensures LongestPrefix(live, scope, n, k) == Some(Under(scope, n, m)) <==>
            Under(scope, n, m) in live && forall j :: m < j <= k ==> Under(scope, n, j) !in live
    ensures LongestPrefix(live, scope, n, k) == None <==> forall j :: 0 <= j <= k ==> Under(scope, n, j) !in live
    decreases k
  {
    if m < k {
      assert |Under(scope, n, k).segments| != |Under(scope, n, m).segments|;
      LongestPrefixIsLongest(live, scope, n, k - 1, m);
    } else if k > 0 {
      LongestPrefixIsLongest(live, scope, n, k - 1, k - 1);
      LongestPrefixBelow(live, scope, n, k - 1);
    }
  }

  lemma {:induction false} LongestPrefixBelow(live: set<Name>, scope: Name, n: Seg, k: nat)
    requires k <= |scope.segments|
    ensures LongestPrefix(live, scope, n, k).Some? ==> |LongestPrefix(live, scope, n, k).value.segments| <= k + 1
    decreases k
  {
    if k > 0 {
      LongestPrefixBelow(live, scope, n, k - 1);
    }
  }

  /** A root hit is a live path whose last segment is n and whose parent path hashes to the seed. */
  lemma RootHitExactly(live: set<Name>, n: Seg, p: Name)
    requires p.segments != []
    ensures RootHit(live, n, p) <==> p in live && Local(p) == n && PathHash(ParentSegments(p)) == HASH_SEED
  {
    assert p.segments == ParentSegments(p) + [Local(p)];
    FoldAppends(ParentSegments(p), [Local(p)], HASH_SEED);
    FoldOne(Local(p), PathHash(ParentSegments(p)));
    if HashKey(Local(p), PathHash(ParentSegments(p))) == HashKey(Local(p), HASH_SEED) {
      InjectiveInSeed(Local(p), PathHash(ParentSegments(p)), HASH_SEED);
    }
  }

  /** No live path, other than those right below '\', has a parent path that hashes to the seed. */
  ghost predicate RootClear(live: set<Name>) {
    forall p :: p in live && p.segments != [] && Local(p) != 0 && PathHash(ParentSegments(p)) == HASH_SEED ==>
      p.prefix == [ROOT_CHAR] && |p.segments| == 1
  }

  const ROOT_SCOPE: Name := Name([ROOT_CHAR], [])

  /** One search step at the root, against the rule. */
  lemma RootStep(live: set<Name>, scope: Name, n: Seg, r: Option<Name>)
    requires n != 0 && scope.prefix == [ROOT_CHAR] && RootClear(live)
    requires FindsUpward(live, scope, n, 0, 0, r)
    ensures r == LongestPrefix(live, scope, n, 0)
  {
    var child := Under(scope, n, 0);
    assert child == Name([ROOT_CHAR], [n]);
    RootHitExactly(live, n, child);
    assert ParentSegments(child) == [];
    if r.Some? {
      RootHitExactly(live, n, r.value);
      assert r.value.segments == [n];
    }
  }

  /**
   The search of a one-segment name follows the rule of section 5.3, for every scope and
   every set of live paths in which the root is clear.
   */
  lemma {:induction false} SearchFollowsRule(live: set<Name>, scope: Name, n: Seg, k: nat, r: Option<Name>)
    requires k <= |scope.segments| && n != 0 && scope.prefix == [ROOT_CHAR] && RootClear(live)
    requires FindsUpward(live, scope, n, k, 0, r)
    ensures r == LongestPrefix(live, scope, n, k)
    decreases k
  {
    if k == 0 {
      RootStep(live, scope, n, r);
    } else if Under(scope, n, k) !in live {
      SearchFollowsRule(live, scope, n, k - 1, r);
    }
  }

  /** A hit below the root needs no assumption about hashes at all. */
  lemma {:induction false} HitBelowRoot(live: set<Name>, scope: Name, n: Seg, k: nat, m: nat, r: Option<Name>)
    requires 0 < m <= k <= |scope.segments| && Under(scope, n, m) in live
    requires FindsUpward(live, scope, n, k, 0, r)
    ensures r == LongestPrefix(live, scope, n, k) && r.Some?
    decreases k
  {
    if Under(scope, n, k) !in live {
      HitBelowRoot(live, scope, n, k - 1, m, r);
    }
  }

  /** The root step is right for every name exactly when the root is clear. */
  lemma RootStepRightIffClear(live: set<Name>)
    ensures RootClear(live) <==>
            forall n, r :: n != 0 && FindsUpward(live, ROOT_SCOPE, n, 0, 0, r) ==>
              r == LongestPrefix(live, ROOT_SCOPE, n, 0)
  {
    if RootClear(live) {
      forall n, r | n != 0 && FindsUpward(live, ROOT_SCOPE, n, 0, 0, r)
        ensures r == LongestPrefix(live, ROOT_SCOPE, n, 0)
      {
        RootStep(live, ROOT_SCOPE, n, r);
      }
    } else {
      var p :| p in live && p.segments != [] && Local(p) != 0 && PathHash(ParentSegments(p)) == HASH_SEED &&
        !(p.prefix == [ROOT_CHAR] && |p.segments| == 1);
      RootHitExactly(live, Local(p), p);
      assert FindsUpward(live, ROOT_SCOPE, Local(p), 0, 0, Some(p));
      assert Under(ROOT_SCOPE, Local(p), 0) == Name([ROOT_CHAR], [Local(p)]);
    }
  }

  /** The search has one answer when no two live paths share a hash. */
  lemma {:induction false} SearchIsFunction(live: set<Name>, scope: Name, n: Seg, k: nat, low: nat, r1: Option<Name>,
                                            r2: Option<Name>)
    requires low <= k <= |scope.segments| && Distinct(live)
    requires FindsUpward(live, scope, n, k, low, r1) && FindsUpward(live, scope, n, k, low, r2)
    ensures r1 == r2
    decreases k
  {
    if k > 0 && Under(scope, n, k) !in live && k != low {
      SearchIsFunction(live, scope, n, k - 1, low, r1, r2);
    }
  }
}
