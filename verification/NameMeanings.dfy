/**
 What names mean, said of the names themselves: prefixes, the namespace after a creation
 or a release, and the parent a node is linked below.
 */
module NameMeanings {
  import opened Hash
  import opened NamePaths
  import opened NameRules
  import opened NameTree

  function Carets(k: nat): string {
    seq(k, _ => '^')
  }

  function Bare(segments: seq<Seg>): Name {
    Name("", segments)
  }

  /** The scope k levels up. */
  function Ancestor(scope: Name, k: nat): Name
    requires k <= |scope.segments|
  {
    Name(scope.prefix, scope.segments[..|scope.segments| - k])
  }

  lemma {:induction false} CaretsAreParents(k: nat)
    ensures OnlyParents(Carets(k)) && (k > 0 ==> Carets(k)[0] == '^' && Carets(k)[1..] == Carets(k - 1))
    decreases k
  {
    if k > 0 {
      CaretsAreParents(k - 1);
      assert Carets(k)[1..] == Carets(k - 1);
    }
  }

  // ------------------------------------------------------------- prefixes

  /** A name without prefix is appended to the scope's path. */
  lemma BareIsAppended(scope: Name, segments: seq<Seg>)
    ensures Resolve(scope, Bare(segments)) == Some(Name(scope.prefix, scope.segments + segments))
  {
    assert scope.segments[..|scope.segments|] == scope.segments;
  }

  /** Each '^' goes up one level, as far as there are levels. */
  lemma CaretsGoUp(scope: Name, k: nat, segments: seq<Seg>)
    ensures Resolve(scope, Name(Carets(k), segments)) ==
            if k <= |scope.segments| then Resolve(Ancestor(scope, k), Bare(segments)) else None
  {
    CaretsAreParents(k);
    if k <= |scope.segments| {
      BareIsAppended(Ancestor(scope, k), segments);
    }
  }

  /** One '^' in a child means what no prefix means in its parent, and so for every further '^'. */
  lemma CaretFromChild(p: Name, s: Seg, k: nat, segments: seq<Seg>)
    ensures Resolve(Name(p.prefix, p.segments + [s]), Name(Carets(k + 1), segments)) ==
            Resolve(p, Name(Carets(k), segments))
  {
    var child := Name(p.prefix, p.segments + [s]);
    CaretsGoUp(child, k + 1, segments);
    CaretsGoUp(p, k, segments);
    if k <= |p.segments| {
      assert Ancestor(child, k + 1) == Ancestor(p, k);
    }
  }

  /** So it has the same hash, is refused by the same live paths, and creates the same path. */
  lemma CaretCreatesTheSame(live: set<Name>, p: Name, s: Seg, k: nat, segments: seq<Seg>)
    ensures var child := Name(p.prefix, p.segments + [s]);
            (Creates(live, child, Name(Carets(k + 1), segments)) <==> Creates(live, p, Name(Carets(k), segments))) &&
            Step(live, Create(child, Name(Carets(k + 1), segments))) == Step(live, Create(p, Name(Carets(k), segments)))
  {
    CaretFromChild(p, s, k, segments);
  }

  /** A name that starts with '\' means itself in every scope. */
  lemma RootedIsItself(scope: Name, name: Name)
    requires name.prefix != [] && name.prefix[0] == '\\'
    ensures Resolve(scope, name) == Some(name)
  {
  }

  /** A name is refused exactly if it goes up too far, or has another character than '^' and does not start with '\'. */
  lemma RefusedIff(scope: Name, name: Name)
    ensures Resolve(scope, name) == None <==>
            !(name.prefix != [] && name.prefix[0] == '\\') &&
            (|name.prefix| > |scope.segments| || exists i :: 0 <= i < |name.prefix| && name.prefix[i] != '^')
  {
    OnlyParentsIff(name.prefix);
  }

  lemma {:induction false} OnlyParentsIff(prefix: string)
    ensures OnlyParents(prefix) <==> forall i :: 0 <= i < |prefix| ==> prefix[i] == '^'
    decreases |prefix|
  {
    if prefix != [] {
      OnlyParentsIff(prefix[1..]);
      assert forall i :: 0 < i < |prefix| ==> prefix[i] == prefix[1..][i - 1];
      assert forall i :: 0 <= i < |prefix[1..]| ==> prefix[1..][i] == prefix[i + 1];
    }
  }

  /** In \A.B, ^C is \A.C, ^^C is \C, C is \A.B.C, \C is \C, and ^^^C is nothing. */
  lemma NamesInScope(a: Seg, b: Seg, c: Seg)
    ensures var scope := Name("\\", [a, b]);
            Resolve(scope, Name("^", [c])) == Some(Name("\\", [a, c])) &&
            Resolve(scope, Name("^^", [c])) == Some(Name("\\", [c])) &&
            Resolve(scope, Name("", [c])) == Some(Name("\\", [a, b, c])) &&
            Resolve(scope, Name("\\", [c])) == Some(Name("\\", [c])) &&
            Resolve(scope, Name("^^^", [c])) == None
  {
    var scope := Name("\\", [a, b]);
    assert Carets(0) == "" && Carets(1) == "^" && Carets(2) == "^^" && Carets(3) == "^^^";
    CaretsGoUp(scope, 1, [c]);
    CaretsGoUp(scope, 2, [c]);
    CaretsGoUp(scope, 3, [c]);
    assert Ancestor(scope, 1).segments == [a] && Ancestor(scope, 2).segments == [];
    BareIsAppended(Ancestor(scope, 1), [c]);
    BareIsAppended(Ancestor(scope, 2), [c]);
    BareIsAppended(scope, [c]);
    assert [a, b] + [c] == [a, b, c] && [a] + [c] == [a, c] && [] + [c] == [c];
  }

  /** The hash of \_SB and of \_SB.PCI0, and that of the root. */
  lemma KnownPathHashes()
    ensures PathHash([]) == 0x416d6c48
    ensures PathHash([0x5f42535f]) == 0x33346aaf
    ensures PathHash([0x5f42535f, 0x30494350]) == 0xbd41932e
  {
    KnownHashes();
    assert [0x5f42535f, 0x30494350] == [0x5f42535f] + [0x30494350];
    FoldAppends([0x5f42535f], [0x30494350], HASH_SEED);
    FoldOne(0x5f42535f, HASH_SEED);
    FoldOne(0x30494350, 0x33346aaf);
  }

  // ----------------------------------------------- creations and releases

  /** A bare name is created exactly if no live path has its hash, and then it is live besides. */
  lemma CreatesBareIff(live: set<Name>, scope: Name, segments: seq<Seg>)
    ensures var path := Name(scope.prefix, scope.segments + segments);
            var free := forall q :: q in live ==> PathHash(q.segments) != PathHash(path.segments);
            (Creates(live, scope, Bare(segments)) <==> free) &&
            Step(live, Create(scope, Bare(segments))) == if free then live + {path} else live
  {
    BareIsAppended(scope, segments);
  }

  /** A rooted one likewise. */
  lemma CreatesRootedIff(live: set<Name>, scope: Name, name: Name)
    requires name.prefix != [] && name.prefix[0] == '\\'
    ensures var free := forall q :: q in live ==> PathHash(q.segments) != PathHash(name.segments);
            (Creates(live, scope, name) <==> free) &&
            Step(live, Create(scope, name)) == if free then live + {name} else live
  {
    RootedIsItself(scope, name);
  }

  /** After a release the path is not live, and every other path is what it was. */
  lemma ReleaseRemovesOne(live: set<Name>, path: Name, q: Name)
    ensures q in Step(live, Release(path)) <==> q in live && q != path
  {
  }

  // ----------------------------------------------------------------- tree

  /**
   A node created after the build is in the tree exactly if its immediate parent is, and
   then it is the last child of that parent.
   */
  lemma ChildIsLinkedIff(live: set<Name>, t: Tree, p: Name, n: Seg)
    requires Name(p.prefix, p.segments + [n]) !in t.nodes
    ensures var path := Name(p.prefix, p.segments + [n]);
            var after := WithChild(live, t, path);
            (path in after.nodes <==> p in live && p in t.nodes) &&
            if p in live && p in t.nodes then
              after.nodes[path].parent == Some(p) && after.nodes[path].children == [] &&
              after.nodes[p].children == t.nodes[p].children + [path]
            else after == t
  {
    var path := Name(p.prefix, p.segments + [n]);
    assert Prefix(path, |path.segments| - 1) == p;
    assert p != path by {
      assert |path.segments| == |p.segments| + 1;
    }
  }

  /** The nearest live ancestor is a live proper prefix with no live one between. */
  lemma NearestAboveIs(live: set<Name>, p: Name, k: nat)
    requires k < |p.segments|
    ensures NearestAbove(live, p) == Some(Name(p.prefix, p.segments[..k])) <==>
            Name(p.prefix, p.segments[..k]) in live &&
            forall j :: k < j < |p.segments| ==> Name(p.prefix, p.segments[..j]) !in live
    ensures NearestAbove(live, p) == None <==>
            forall j :: 0 <= j < |p.segments| ==> Name(p.prefix, p.segments[..j]) !in live
  {
    NearestIs(live, p, |p.segments| - 1, k);
  }

  lemma {:induction false} NearestIs(live: set<Name>, p: Name, m: nat, k: nat)
    requires k <= m < |p.segments|
    ensures Nearest(live, p, m) == Some(Name(p.prefix, p.segments[..k])) <==>
            Name(p.prefix, p.segments[..k]) in live &&
            forall j :: k < j <= m ==> Name(p.prefix, p.segments[..j]) !in live
    ensures Nearest(live, p, m) == None <==> forall j :: 0 <= j <= m ==> Name(p.prefix, p.segments[..j]) !in live
    decreases m
  {
    if k < m {
      assert |p.segments[..k]| != |p.segments[..m]|;
      NearestIs(live, p, m - 1, k);
    } else if m > 0 {
      NearestIs(live, p, m - 1, m - 1);
      NearestIsLivePrefix(live, p, m - 1);
    }
  }

  // --------------------------------------------------------------- search

  /** The search rule: the name at the longest prefix of the scope at which it is live. */
  lemma LongestPrefixMeans(live: set<Name>, scope: Name, n: Seg, m: nat)
    requires m <= |scope.segments|
    ensures LongestPrefix(live, scope, n, |scope.segments|) == Some(Name(scope.prefix, scope.segments[..m] + [n])) <==>
            Name(scope.prefix, scope.segments[..m] + [n]) in live &&
            forall j :: m < j <= |scope.segments| ==> Name(scope.prefix, scope.segments[..j] + [n]) !in live
    ensures LongestPrefix(live, scope, n, |scope.segments|) == None <==>
            forall j :: 0 <= j <= |scope.segments| ==> Name(scope.prefix, scope.segments[..j] + [n]) !in live
  {
    LongestPrefixIsLongest(live, scope, n, |scope.segments|, m);
    assert forall j :: 0 <= j <= |scope.segments| ==>
        Under(scope, n, j) == Name(scope.prefix, scope.segments[..j] + [n]);
  }
}
