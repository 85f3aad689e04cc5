/**
 The tree over the live paths (src/aml_namespace.c:1220-1345): every node hangs below
 the live node at its longest proper prefix, or below the tree's root.
 */
module NameTree {
  import opened Hash
  import opened NamePaths
  import opened NameRules
  import opened Folding

  datatype Entry = Entry(parent: Option<Name>, depth: nat, children: seq<Name>)

  /** The nodes present in the tree, and the children of the root. */
  datatype Tree = Tree(nodes: map<Name, Entry>, roots: seq<Name>)

  const MAX_DEPTH: nat := 0xFFFF_FFFF_FFFF_FFFF
  const ROOT_DEPTH: nat := 1

  predicate Present(t: Tree, parent: Option<Name>) {
    parent.Some? ==> parent.value in t.nodes
  }

  function DepthOf(t: Tree, parent: Option<Name>): nat
    requires Present(t, parent)
  {
    if parent.Some? then t.nodes[parent.value].depth else ROOT_DEPTH
  }

  function ChildrenOf(t: Tree, parent: Option<Name>): seq<Name>
    requires Present(t, parent)
  {
    if parent.Some? then t.nodes[parent.value].children else t.roots
  }

  function DepthBelow(depth: nat): nat {
    depth + (if depth < MAX_DEPTH then 1 else 0)
  }

  /** AmlNamespaceTreeLinkChildNode. */
  function Link(t: Tree, parent: Option<Name>, child: Name): Tree
    requires Present(t, parent) && child !in t.nodes
  {
    var nodes := t.nodes[child := Entry(parent, DepthBelow(DepthOf(t, parent)), [])];
    match parent
    case None => Tree(nodes, t.roots + [child])
    case Some(p) => Tree(nodes[p := nodes[p].(children := nodes[p].children + [child])], t.roots)
  }

  /** The live path at the longest prefix of p with at most k segments. */
  function Nearest(live: set<Name>, p: Name, k: nat): Option<Name>
    requires k <= |p.segments|
    decreases k
  {
    if Prefix(p, k) in live then Some(Prefix(p, k)) else if k == 0 then None else Nearest(live, p, k - 1)
  }

  /** The live path at the longest proper prefix of p. */
  function NearestAbove(live: set<Name>, p: Name): Option<Name> {
    if p.segments == [] then None else Nearest(live, p, |p.segments| - 1)
  }

  predicate NoRepeats(s: seq<Name>) {
    forall i, j :: 0 <= i < j < |s| ==> s[i] != s[j]
  }

  /** One node hangs where it should. */
  predicate Hangs(live: set<Name>, t: Tree, p: Name)
    requires p in t.nodes
  {
    p in live && t.nodes[p].parent == NearestAbove(live, p) && Present(t, t.nodes[p].parent) &&
    t.nodes[p].depth == DepthBelow(DepthOf(t, t.nodes[p].parent))
  }

  /** A child list holds exactly the nodes whose parent has it, each once. */
  ghost predicate Lists(t: Tree, parent: Option<Name>)
    requires Present(t, parent)
  {
    NoRepeats(ChildrenOf(t, parent)) &&
    forall c :: c in ChildrenOf(t, parent) <==> c in t.nodes && t.nodes[c].parent == parent
  }

  ghost predicate TreeOk(live: set<Name>, t: Tree) {
    forall key :: Open(TREE, key) ==> TreeOkOpen(live, t)
  }

  ghost predicate TreeOkOpen(live: set<Name>, t: Tree) {
    (forall p :: p in t.nodes ==> Hangs(live, t, p)) &&
    (forall parent :: Present(t, parent) ==> Lists(t, parent))
  }

  /** Nodes already present keep their place; child lists only grow at the end. */
  ghost predicate Grown(before: Tree, after: Tree) {
    before.roots <= after.roots &&
    forall p :: p in before.nodes ==>
      p in after.nodes && after.nodes[p].parent == before.nodes[p].parent &&
      after.nodes[p].depth == before.nodes[p].depth && before.nodes[p].children <= after.nodes[p].children
  }

  lemma PrefixOfPrefix(p: Name, j: nat, k: nat)
    requires k <= j <= |p.segments|
    ensures Prefix(Prefix(p, j), k) == Prefix(p, k)
  {
  }

  lemma {:induction false} NearestOfPrefix(live: set<Name>, p: Name, j: nat, k: nat)
    requires k <= j <= |p.segments|
    ensures Nearest(live, Prefix(p, j), k) == Nearest(live, p, k)
    decreases k
  {
    PrefixOfPrefix(p, j, k);
    if k > 0 {
      NearestOfPrefix(live, p, j, k - 1);
    }
  }

  /** What linking changes: one more node, and one child list longer by it. */
  lemma LinkFacts(t: Tree, parent: Option<Name>, child: Name, q: Option<Name>)
    requires Present(t, parent) && child !in t.nodes
    ensures forall c :: c in Link(t, parent, child).nodes <==> c in t.nodes || c == child
    ensures forall c :: c in t.nodes ==> Link(t, parent, child).nodes[c].parent == t.nodes[c].parent &&
                                         Link(t, parent, child).nodes[c].depth == t.nodes[c].depth
    ensures Link(t, parent, child).nodes[child].parent == parent
    ensures Present(t, q) ==>
              ChildrenOf(Link(t, parent, child), q) == ChildrenOf(t, q) + if q == parent then [child] else []
    ensures q == Some(child) ==> ChildrenOf(Link(t, parent, child), q) == []
  {
  }

  lemma LinkListsOld(t: Tree, parent: Option<Name>, child: Name, q: Option<Name>)
    requires Present(t, parent) && child !in t.nodes && Present(t, q) && Lists(t, q)
    ensures Lists(Link(t, parent, child), q)
  {
  }

  lemma LinkListsNew(live: set<Name>, t: Tree, parent: Option<Name>, child: Name)
    requires TreeOk(live, t) && Present(t, parent) && child !in t.nodes
    ensures Lists(Link(t, parent, child), Some(child))
  {
    assert Open(TREE, 0);
  }

  lemma LinkKeepsHanging(live: set<Name>, t: Tree, parent: Option<Name>, child: Name, p: Name)
    requires TreeOk(live, t) && Present(t, parent) && child !in t.nodes
    requires child in live && parent == NearestAbove(live, child)
    requires p in Link(t, parent, child).nodes
    ensures Hangs(live, Link(t, parent, child), p)
  {
    assert Open(TREE, 0);
    if p in t.nodes {
      assert Hangs(live, t, p);
    }
  }

  lemma LinkKeepsTree(live: set<Name>, t: Tree, parent: Option<Name>, child: Name)
    requires TreeOk(live, t) && Present(t, parent) && child !in t.nodes
    requires child in live && parent == NearestAbove(live, child)
    ensures TreeOk(live, Link(t, parent, child))
  {
    assert Open(TREE, 0);
    var after := Link(t, parent, child);
    forall p | p in after.nodes ensures Hangs(live, after, p) {
      LinkKeepsHanging(live, t, parent, child, p);
    }
    forall q | Present(after, q) ensures Lists(after, q) {
      LinkFacts(t, parent, child, q);
      if q == Some(child) {
        LinkListsNew(live, t, parent, child);
      } else {
        LinkListsOld(t, parent, child, q);
      }
    }
  }

  // ---------------------------------------------------------- insertion

  /** q is p's prefix of fewer than j segments. */
  predicate PrefixBelow(q: Name, p: Name, j: nat) {
    |q.segments| < j && |q.segments| <= |p.segments| && q == Prefix(p, |q.segments|)
  }

  /** The nearest live prefix of p with fewer than j segments. */
  function LastBelow(live: set<Name>, p: Name, j: nat): Option<Name>
    requires j <= |p.segments| + 1
  {
    if j == 0 then None else Nearest(live, p, j - 1)
  }

  ghost predicate SameNodesPlus(live: set<Name>, before: Tree, after: Tree, p: Name, j: nat) {
    forall q :: q in after.nodes <==> q in before.nodes || (q in live && PrefixBelow(q, p, j))
  }

  /** Inserting p has gone through its prefixes of fewer than j segments. */
  ghost predicate InsertedBelow(live: set<Name>, before: Tree, after: Tree, p: Name, j: nat) {
    TreeOk(live, after) && Grown(before, after) && SameNodesPlus(live, before, after, p, j)
  }

  lemma GrownTransitive(a: Tree, b: Tree, c: Tree)
    requires Grown(a, b) && Grown(b, c)
    ensures Grown(a, c)
  {
  }

  lemma LinkGrows(t: Tree, parent: Option<Name>, child: Name)
    requires Present(t, parent) && child !in t.nodes
    ensures Grown(t, Link(t, parent, child))
  {
  }

  lemma {:induction false} NearestIsLivePrefix(live: set<Name>, p: Name, k: nat)
    requires k <= |p.segments|
    ensures var r := Nearest(live, p, k);
            r.Some? ==> r.value in live && PrefixBelow(r.value, p, k + 1)
    decreases k
  {
    if k > 0 {
      NearestIsLivePrefix(live, p, k - 1);
    }
  }

  lemma LastIsPresent(live: set<Name>, before: Tree, t: Tree, p: Name, j: nat)
    requires j <= |p.segments| + 1 && InsertedBelow(live, before, t, p, j)
    ensures Present(t, LastBelow(live, p, j))
  {
    assert Open(TREE, 0);
    if j > 0 {
      NearestIsLivePrefix(live, p, j - 1);
    }
  }

  lemma ParentOfPrefix(live: set<Name>, p: Name, j: nat)
    requires j <= |p.segments|
    ensures NearestAbove(live, Prefix(p, j)) == LastBelow(live, p, j)
  {
    if j > 0 {
      NearestOfPrefix(live, p, j, j - 1);
    }
  }

  /** The prefix of j segments is not live, or is present already. */
  lemma InsertSkips(live: set<Name>, before: Tree, t: Tree, p: Name, j: nat)
    requires j <= |p.segments| && InsertedBelow(live, before, t, p, j)
    requires Prefix(p, j) !in live || Prefix(p, j) in t.nodes
    ensures InsertedBelow(live, before, t, p, j + 1)
    ensures LastBelow(live, p, j + 1) == if Prefix(p, j) in live then Some(Prefix(p, j)) else LastBelow(live, p, j)
  {
  }

  lemma InsertLinks(live: set<Name>, before: Tree, t: Tree, p: Name, j: nat)
    requires j <= |p.segments| && InsertedBelow(live, before, t, p, j)
    requires Prefix(p, j) in live && Prefix(p, j) !in t.nodes
    ensures Present(t, LastBelow(live, p, j))
    ensures InsertedBelow(live, before, Link(t, LastBelow(live, p, j), Prefix(p, j)), p, j + 1)
    ensures LastBelow(live, p, j + 1) == Some(Prefix(p, j))
  {
    var last, child := LastBelow(live, p, j), Prefix(p, j);
    LastIsPresent(live, before, t, p, j);
    ParentOfPrefix(live, p, j);
    LinkKeepsTree(live, t, last, child);
    LinkGrows(t, last, child);
    GrownTransitive(before, t, Link(t, last, child));
    LinkFacts(t, last, child, last);
  }

  // -------------------------------------------------------------- depth

  /** How many of the k shortest prefixes of p are live. */
  function LivePrefixes(live: set<Name>, p: Name, k: nat): nat
    requires k <= |p.segments| + 1
    decreases k
  {
    if k == 0 then 0 else LivePrefixes(live, p, k - 1) + if Prefix(p, k - 1) in live then 1 else 0
  }

  lemma {:induction false} LivePrefixesOfPrefix(live: set<Name>, p: Name, j: nat, k: nat)
    requires k <= j + 1 && j <= |p.segments|
    ensures LivePrefixes(live, Prefix(p, j), k) == LivePrefixes(live, p, k)
    decreases k
  {
    if k > 0 {
      PrefixOfPrefix(p, j, k - 1);
      LivePrefixesOfPrefix(live, p, j, k - 1);
    }
  }

  /** Above the nearest live prefix there are no others. */
  lemma {:induction false} CountFromNearest(live: set<Name>, p: Name, k: nat)
    requires k <= |p.segments|
    ensures match Nearest(live, p, k)
            case None => LivePrefixes(live, p, k + 1) == 0
            case Some(q) => |q.segments| <= k && LivePrefixes(live, p, k + 1) == LivePrefixes(live, p, |q.segments|) + 1
    decreases k
  {
    if k > 0 {
      CountFromNearest(live, p, k - 1);
    }
  }

  /** One more live proper prefix than the nearest of them has. */
  lemma CountFromParent(live: set<Name>, p: Name)
    requires p.segments != []
    ensures match NearestAbove(live, p)
            case None => LivePrefixes(live, p, |p.segments|) == 0
            case Some(q) => |q.segments| < |p.segments| &&
                            LivePrefixes(live, p, |p.segments|) == LivePrefixes(live, q, |q.segments|) + 1
  {
    var k := |p.segments| - 1;
    CountFromNearest(live, p, k);
    NearestIsLivePrefix(live, p, k);
    var parent := NearestAbove(live, p);
    if parent.Some? {
      LivePrefixesOfPrefix(live, p, |parent.value.segments|, |parent.value.segments|);
    }
  }

  function Min(a: nat, b: nat): nat {
    if a < b then a else b
  }

  /** A node's depth is two more than the number of its live proper prefixes, as far as the counter goes. */
  lemma {:induction false} DepthCountsAncestors(live: set<Name>, t: Tree, p: Name)
    requires TreeOk(live, t) && p in t.nodes
    ensures t.nodes[p].depth == Min(MAX_DEPTH, 2 + LivePrefixes(live, p, |p.segments|))
    decreases |p.segments|
  {
    NodeHangs(live, t, p);
    if p.segments != [] {
      CountFromParent(live, p);
      if t.nodes[p].parent.Some? {
        DepthCountsAncestors(live, t, t.nodes[p].parent.value);
      }
    }
  }

  lemma NodeHangs(live: set<Name>, t: Tree, p: Name)
    requires TreeOk(live, t) && p in t.nodes
    ensures Hangs(live, t, p)
  {
    assert Open(TREE, 0);
  }

  // ------------------------------------------- creating after the build

  /** A new live path that is no prefix of q changes nothing above q. */
  lemma {:induction false} NearestUnchanged(live: set<Name>, p: Name, q: Name, k: nat)
    requires k <= |q.segments| && !PrefixBelow(p, q, k + 1)
    ensures Nearest(live + {p}, q, k) == Nearest(live, q, k)
    decreases k
  {
    if k > 0 {
      NearestUnchanged(live, p, q, k - 1);
    }
  }

  lemma {:induction false} NearestAtLeast(live: set<Name>, p: Name, q: Name, k: nat)
    requires k <= |q.segments| && p in live && PrefixBelow(p, q, k + 1)
    ensures Nearest(live, q, k).Some? && |p.segments| <= |Nearest(live, q, k).value.segments|
    decreases k
  {
    if k > 0 && |p.segments| < k {
      NearestAtLeast(live, p, q, k - 1);
    }
  }

  /** Above q, the nearest live path lies between q and any live path above q. */
  lemma NearestIsBetween(live: set<Name>, p: Name, q: Name)
    requires p in live && PrefixBelow(p, q, |q.segments|)
    ensures NearestAbove(live, q).Some?
    ensures var r := NearestAbove(live, q).value;
            r in live && |r.segments| < |q.segments| && PrefixBelow(p, r, |r.segments| + 1)
  {
    var k := |q.segments| - 1;
    NearestAtLeast(live, p, q, k);
    NearestIsLivePrefix(live, q, k);
    PrefixOfPrefix(q, |NearestAbove(live, q).value.segments|, |p.segments|);
  }

  lemma WholePrefix(q: Name, p: Name)
    requires PrefixBelow(q, p, |p.segments| + 1)
    ensures |q.segments| == |p.segments| <==> q == p
  {
  }

  /** A present node that the new path is a proper prefix of has the wrong parent, or an ancestor of it has. */
  lemma {:induction false} DescendantMisplaced(live: set<Name>, t: Tree, after: Tree, p: Name, q: Name)
    requires TreeOk(live, t) && p !in live && q in t.nodes && PrefixBelow(p, q, |q.segments|)
    requires Grown(t, after)
    ensures !TreeOk(live + {p}, after)
    decreases |q.segments|
  {
    assert Open(TREE, 0);
    NearestIsBetween(live + {p}, p, q);
    var r := NearestAbove(live + {p}, q).value;
    assert Hangs(live, t, q);
    if Hangs(live + {p}, after, q) {
      assert r in t.nodes && Hangs(live, t, r);
      WholePrefix(p, r);
      DescendantMisplaced(live, t, after, p, r);
    }
  }

  /** The tree after the creation of a path: linked if its immediate parent is in the tree. */
  function WithChild(live: set<Name>, t: Tree, path: Name): Tree {
    if path.segments != [] && path !in t.nodes then
      var parent := Prefix(path, |path.segments| - 1);
      if parent in live && parent in t.nodes then Link(t, Some(parent), path) else t
    else t
  }

  lemma UnlinkedStaysRight(live: set<Name>, t: Tree, p: Name)
    requires TreeOk(live, t) && p !in live
    requires forall q :: q in t.nodes ==> !PrefixBelow(p, q, |q.segments|)
    ensures TreeOk(live + {p}, t)
  {
    assert Open(TREE, 0);
    forall q | q in t.nodes ensures Hangs(live + {p}, t, q) {
      assert Hangs(live, t, q);
      if q.segments != [] {
        NearestUnchanged(live, p, q, |q.segments| - 1);
      }
    }
  }

  /** After the build, creating p leaves the tree right exactly when no present node lies below p. */
  lemma CreationKeepsTreeIff(live: set<Name>, t: Tree, p: Name)
    requires TreeOk(live, t) && p !in live
    ensures TreeOk(live + {p}, WithChild(live, t, p)) <==> forall q :: q in t.nodes ==> !PrefixBelow(p, q, |q.segments|)
  {
    var after := WithChild(live, t, p);
    var linked := after != t;
    if linked {
      LinkGrows(t, Some(Prefix(p, |p.segments| - 1)), p);
    }
    forall q | q in t.nodes && PrefixBelow(p, q, |q.segments|) ensures !TreeOk(live + {p}, after) {
      DescendantMisplaced(live, t, after, p, q);
    }
    if forall q :: q in t.nodes ==> !PrefixBelow(p, q, |q.segments|) {
      UnlinkedStaysRight(live, t, p);
      if linked {
        LinkKeepsTree(live + {p}, t, Some(Prefix(p, |p.segments| - 1)), p);
      }
    }
  }

  /** Whatever is in the tree, its live prefixes are in it too. */
  lemma {:induction false} AncestorsPresent(live: set<Name>, t: Tree, p: Name, q: Name)
    requires TreeOk(live, t) && p in t.nodes && q in live && PrefixBelow(q, p, |p.segments| + 1)
    ensures q in t.nodes
    decreases |p.segments|
  {
    assert Open(TREE, 0);
    assert Hangs(live, t, p);
    WholePrefix(q, p);
    if q != p {
      NearestIsBetween(live, q, p);
      AncestorsPresent(live, t, NearestAbove(live, p).value, q);
    }
  }

  lemma AlreadyInserted(live: set<Name>, t: Tree, p: Name)
    requires TreeOk(live, t) && p in t.nodes
    ensures InsertedBelow(live, t, t, p, |p.segments| + 1)
  {
    forall q | q in live && PrefixBelow(q, p, |p.segments| + 1) ensures q in t.nodes {
      AncestorsPresent(live, t, p, q);
    }
  }
}
