/**
 The namespace index (src/aml_namespace.c): a chained hash table keyed by path hash,
 the evaluation-order list and the scope stack.  Each bucket and the list are sequences,
 the ghost set live is the abstract state, and every method is proved against NameRules.
 */
module Namespace {
  import opened Folding
  import opened Hash
  import opened NamePaths
  import opened NameRules
  import opened NameTree

  const BUCKET_COUNT: nat := 1024

  datatype Node = Node(path: Name, hash: bv32, localName: Seg)

  function BucketOf(hash: bv32): (b: nat)
    ensures b < BUCKET_COUNT
  {
    (hash % 1024) as nat
  }

  /** The node of a live path. */
  function NodeFor(p: Name): Node {
    Node(p, PathHash(p.segments), Local(p))
  }

  function BucketFor(p: Name): (b: nat)
    ensures b < BUCKET_COUNT
  {
    BucketOf(PathHash(p.segments))
  }

  /** Every node of bucket b is the node of an absolute path that belongs there. */
  predicate BucketOk(bucket: seq<Node>, b: nat) {
    forall i :: 0 <= i < |bucket| ==>
      bucket[i] == NodeFor(bucket[i].path) && IsAbsolute(bucket[i].path) && BucketOf(bucket[i].hash) == b
  }

  /** The buckets hold exactly the nodes of the live paths, each in its own bucket. */
  ghost predicate Indexes(buckets: seq<seq<Node>>, live: set<Name>) {
    |buckets| == BUCKET_COUNT && forall key :: Open(INDEX, key) ==> IndexesOpen(buckets, live)
  }

  ghost predicate IndexesOpen(buckets: seq<seq<Node>>, live: set<Name>)
    requires |buckets| == BUCKET_COUNT
  {
    (forall b :: 0 <= b < BUCKET_COUNT ==> BucketOk(buckets[b], b)) &&
    (forall p :: p in live <==> NodeFor(p) in buckets[BucketFor(p)])
  }

  function Without<T(==, !new)>(s: seq<T>, x: T): (r: seq<T>)
    ensures forall y :: y in r <==> y in s && y != x
  {
    if s == [] then [] else if s[0] == x then Without(s[1..], x) else [s[0]] + Without(s[1..], x)
  }

  function Push<T(==, !new)>(x: T, s: seq<T>): (r: seq<T>)
    ensures forall y :: y in r <==> y == x || y in s
  {
    [x] + s
  }

  function PathOf(found: Option<Node>): Option<Name> {
    match found
    case None => None
    case Some(node) => Some(node.path)
  }

  predicate ScopesOk(scopes: seq<Name>) {
    scopes != [] && scopes[0] == ROOT_SCOPE && forall i :: 0 <= i < |scopes| ==> IsAbsolute(scopes[i])
  }

  /** The list holds the node of every live path, once. */
  ghost predicate ListsLive(list: seq<Node>, live: set<Name>) {
    (forall i :: 0 <= i < |list| ==> list[i] == NodeFor(list[i].path)) &&
    (forall p :: p in live <==> NodeFor(p) in list) &&
    (forall i, j :: 0 <= i < j < |list| ==> list[i] != list[j])
  }

  /** No two live paths share a hash, and the evaluation-order list holds the live nodes. */
  ghost predicate Ordered(list: seq<Node>, live: set<Name>) {
    forall key :: Open(ORDER, key) ==> Distinct(live) && ListsLive(list, live)
  }

  /** The exact lookup of a resolved path. */
  ghost function Exact(live: set<Name>, p: Option<Name>): Option<Node> {
    if p.Some? && p.value in live then Some(NodeFor(p.value)) else None
  }

  /** The place of the first node with the hash and the local name, past the end if there is none. */
  method FirstMatch(bucket: seq<Node>, hash: bv32, n: Seg) returns (i: nat)
    ensures i <= |bucket| && NoneMatches(bucket[..i], hash, n)
    ensures i < |bucket| ==> bucket[i].hash == hash && bucket[i].localName == n
  {
    i := 0;
    while i < |bucket|
      invariant i <= |bucket| && NoneMatches(bucket[..i], hash, n)
    {
      if bucket[i].hash == hash && bucket[i].localName == n {
        return;
      }
      i := i + 1;
    }
  }

  class Namespace {
    var buckets: seq<seq<Node>>
    var scopes: seq<Name>
    // The evaluation-order list, and where its head pointer is; past the end when it is null.
    var inOrder: seq<Node>
    var head: nat
    var tree: Tree
    ghost var live: set<Name>

    ghost predicate Indexed()
      reads `buckets, `live
    {
      Indexes(buckets, live)
    }

    /** Everything but the tree is consistent. */
    ghost predicate Valid()
      reads `buckets, `live, `scopes, `inOrder, `head
    {
      Indexed() && Ordered(inOrder, live) && ScopesOk(scopes) && head <= |inOrder|
    }

    constructor ()
      ensures Valid() && live == {} && scopes == [ROOT_SCOPE] && inOrder == [] && tree == Tree(map[], [])
    {
      inOrder, head, tree := [], 0, Tree(map[], []);
      buckets := seq(BUCKET_COUNT, _ => []);
      scopes := [ROOT_SCOPE];
      live := {};
    }

    /** The bucket scan of AmlNamespaceSearchPrefixedName, which keeps the last match. */
    method FindPath(hash: bv32, path: Name) returns (found: Option<Node>)
      requires Indexed() && hash == PathHash(path.segments)
      ensures found == Exact(live, Some(path))
    {
      assert Open(INDEX, 0);
      found := None;
      var bucket := buckets[BucketOf(hash)];
      var i := 0;
      while i < |bucket|
        invariant i <= |bucket|
        invariant found == if NodeFor(path) in bucket[..i] then Some(NodeFor(path)) else None
      {
        if bucket[i].hash == hash && bucket[i].path == path {
          found := Some(bucket[i]);
        }
        i := i + 1;
      }
      assert bucket[..i] == bucket;
    }

    /** AmlNamespaceSearchPrefixedName. */
    method SearchPrefixed(scope: Name, name: Name) returns (found: Option<Node>)
      requires Indexed()
      ensures found == if name.prefix == [] && |name.segments| <= 1 then None else Exact(live, Resolve(scope, name))
    {
      if |name.prefix| <= 0 && |name.segments| <= 1 {
        return None;
      }
      var ok, absolute := ConvertToAbsolutePath(scope, name);
      if !ok {
        return None;
      }
      var hashed, hash := HashPrefixedName(scope, name);
      if !hashed {
        return None;
      }
      found := FindPath(hash, absolute);
    }

    /** The bucket scan at the ancestor of the scope that has k segments. */
    method FindUnder(scope: Name, n: Seg, k: nat) returns (found: Option<Node>)
      requires Indexed() && 0 < k <= |scope.segments|
      ensures found == Exact(live, Some(Under(scope, n, k)))
    {
      assert Open(INDEX, 0);
      var hash := FoldSegments(scope.segments[..k], HASH_SEED);
      hash := HashKey(n, hash);
      ghost var wanted := Under(scope, n, k);
      assert hash == PathHash(wanted.segments) by {
        FoldAppends(scope.segments[..k], [n], HASH_SEED);
        FoldOne(n, PathHash(scope.segments[..k]));
      }
      var bucket := buckets[BucketOf(hash)];
      var i := 0;
      while i < |bucket|
        invariant i <= |bucket| && NodeFor(wanted) !in bucket[..i]
      {
        if bucket[i].hash == hash && ParentIs(bucket[i].path, scope, k) && bucket[i].localName == n {
          PathIsUnder(bucket[i].path, scope, n, k);
          return Some(bucket[i]);
        }
        ParentOfUnder(bucket[i].path, scope, n, k);
        i := i + 1;
      }
      assert bucket[..i] == bucket;
      return None;
    }

    /** The bucket scan at the root, where only the hash and the local name are compared. */
    method FindAtRoot(n: Seg) returns (found: Option<Node>)
      requires Indexed()
      ensures found.Some? ==> found.value == NodeFor(found.value.path) && RootHit(live, n, found.value.path)
      ensures found.None? ==> forall p :: !RootHit(live, n, p)
    {
      var hash := HashKey(n, HASH_SEED);
      var bucket := buckets[BucketOf(hash)];
      var i := FirstMatch(bucket, hash, n);
      if i < |bucket| {
        NodeIsLive(buckets, live, BucketOf(hash), i);
        return Some(bucket[i]);
      }
      assert bucket[..i] == bucket;
      NoRootHit(buckets, live, n);
      return None;
    }

    /** AmlNamespaceSearchRelativeName. */
    method SearchRelative(scope: Name, name: Name, creation: bool) returns (found: Option<Node>)
      requires Indexed()
      ensures name.prefix != [] || |name.segments| != 1 ==> found == None
      ensures found.Some? ==> found.value == NodeFor(found.value.path)
      ensures name.prefix == [] && |name.segments| == 1 ==>
                FindsUpward(live, scope, name.segments[0], |scope.segments|, if creation then |scope.segments|
                  else 0, PathOf(found))
    {
      if |name.prefix| > 0 || |name.segments| != 1 {
        return None;
      }
      var n := name.segments[0];
      ghost var low := if creation then |scope.segments| else 0;
      found := None;
      var i := 0;
      while i < |scope.segments| + 1 && found == None
        invariant i <= |scope.segments| + 1 && (creation ==> i <= 1)
        invariant found.Some? ==> i > 0 && found.value == NodeFor(found.value.path)
        invariant ToDo(live, scope, n, low, i, PathOf(found))
      {
        if creation && i != 0 {
          break;
        }
        if i < |scope.segments| {
          found := FindUnder(scope, n, |scope.segments| - i);
        } else {
          found := FindAtRoot(n);
        }
        SearchStep(live, scope, n, low, i, PathOf(found));
        i := i + 1;
      }
    }

    /** AmlNamespaceSearch over an alias-free namespace; no scope means the innermost one. */
    method Search(scope: Option<Name>, name: Name, creation: bool) returns (found: Option<Node>)
      requires Indexed() && (scope.None? ==> scopes != [])
      ensures found.Some? ==> found.value == NodeFor(found.value.path)
      ensures var active := if scope.Some? then scope.value else scopes[|scopes| - 1];
              if name.prefix != [] || |name.segments| > 1 then found == Exact(live, Resolve(active, name))
              else if |name.segments| == 1 then
                FindsUpward(live, active, name.segments[0], |active.segments|, if creation then |active.segments|
                  else 0, PathOf(found))
              else found == None
      ensures var active := if scope.Some? then scope.value else scopes[|scopes| - 1];
              name.prefix == [] && |name.segments| == 1 && !creation && name.segments[0] != 0 &&
              active.prefix == [ROOT_CHAR] && RootClear(live) ==>
                PathOf(found) == LongestPrefix(live, active, name.segments[0], |active.segments|)
    {
      var active := if scope.Some? then scope.value else scopes[|scopes| - 1];
      if |name.prefix| > 0 || |name.segments| > 1 {
        found := SearchPrefixed(active, name);
      } else {
        found := SearchRelative(active, name, creation);
        if |name.segments| == 1 && !creation && name.segments[0] != 0 && active.prefix == [ROOT_CHAR] &&
           RootClear(live) {
          SearchFollowsRule(live, active, name.segments[0], |active.segments|, PathOf(found));
        }
      }
    }

    // ----------------------------------------------------------- scopes

    /** AmlNamespacePushScope: a name without segments means the root, whatever its prefix. */
    method PushScope(name: Name) returns (ok: bool)
      requires Valid()
      modifies `scopes
      ensures Valid()
      ensures var path := if name.segments == [] then Some(ROOT_SCOPE)
              else Resolve(old(scopes)[|old(scopes)| - 1], name);
              ok == path.Some? && scopes == if ok then old(scopes) + [path.value] else old(scopes)
    {
      var path := ROOT_SCOPE;
      if |name.segments| != 0 {
        ok, path := ConvertToAbsolutePath(scopes[|scopes| - 1], name);
        if !ok {
          return false;
        }
      }
      scopes := scopes + [path];
      return true;
    }

    /** AmlNamespacePopScope: the root scope stays. */
    method PopScope() returns (ok: bool)
      requires Valid()
      modifies `scopes
      ensures Valid()
      ensures ok == (|old(scopes)| > 1)
      ensures scopes == if ok then old(scopes)[..|old(scopes)| - 1] else old(scopes)
    {
      if |scopes| == 1 {
        return false;
      }
      scopes := scopes[..|scopes| - 1];
      return true;
    }

    /** AmlNamespaceSearchRelative: the scope stack comes back as it was. */
    method SearchRelativeTo(node: Node, name: Name, ancestors: bool) returns (found: Option<Node>)
      requires Valid() && IsAbsolute(node.path)
      modifies `scopes
      ensures Valid() && scopes == old(scopes)
      ensures var active := if node.path.segments == [] then ROOT_SCOPE else node.path;
              if name.prefix != [] || |name.segments| > 1 then found == Exact(live, Resolve(active, name))
              else if |name.segments| == 1 then
                FindsUpward(live, active, name.segments[0], |active.segments|, if ancestors then 0
                  else |active.segments|, PathOf(found))
              else found == None
    {
      var ok := PushScope(node.path);
      found := Search(None, name, !ancestors);
      ok := PopScope();
    }

    // -------------------------------------------------- create, release

    /** The collision check of AmlNamespaceCreateNode. */
    method Collides(path: Name, hash: bv32) returns (collides: bool)
      requires Indexed() && hash == PathHash(path.segments)
      ensures collides <==> !HashFree(live, path)
    {
      var bucket := buckets[BucketOf(hash)];
      var i := 0;
      while i < |bucket|
        invariant i <= |bucket| && forall j :: 0 <= j < i ==> bucket[j].hash != hash
      {
        if bucket[i].hash == hash || bucket[i].path == path {
          NodeIsLive(buckets, live, BucketOf(hash), i);
          return true;
        }
        i := i + 1;
      }
      NoHashInBucket(buckets, live, hash);
      return false;
    }

    /** AmlNamespaceCreateNode: it is refused exactly when the name does not resolve or its hash is taken. */
    method CreateNode(scope: Option<Name>, name: Name) returns (created: Option<Node>)
      requires Valid() && (scope.Some? ==> IsAbsolute(scope.value))
      modifies `buckets, `inOrder, `tree, `live
      ensures Valid()
      ensures var active := if scope.Some? then scope.value else scopes[|scopes| - 1];
              (created.Some? <==> Creates(old(live), active, name)) &&
              live == Step(old(live), Op.Create(active, name)) &&
              (created.Some? ==> created.value == NodeFor(Resolve(active, name).value))
      ensures inOrder == if created.Some? then old(inOrder) + [created.value] else old(inOrder)
      ensures tree == if created.Some? then WithChild(old(live), old(tree), created.value.path) else old(tree)
    {
      var active := if scope.Some? then scope.value else scopes[|scopes| - 1];
      var ok, path := ConvertToAbsolutePath(active, name);
      if !ok {
        return None;
      }
      AbsoluteResolves(active, name);
      var hashed, hash := HashPrefixedName(active, path);
      created := CreateAt(path, hash);
    }

    /** The rest of it, for a path that has been resolved and hashed. */
    method CreateAt(path: Name, hash: bv32) returns (created: Option<Node>)
      requires Valid() && IsAbsolute(path) && hash == PathHash(path.segments)
      modifies `buckets, `inOrder, `tree, `live
      ensures Valid() && (created.Some? <==> HashFree(old(live), path))
      ensures created.Some? ==> created.value == NodeFor(path)
      ensures live == if created.Some? then old(live) + {path} else old(live)
      ensures inOrder == if created.Some? then old(inOrder) + [created.value] else old(inOrder)
      ensures tree == if created.Some? then WithChild(old(live), old(tree), path) else old(tree)
    {
      var collides := Collides(path, hash);
      if collides {
        return None;
      }
      var node := Node(path, hash, if |path.segments| > 0 then path.segments[|path.segments| - 1] else 0);
      LinkToPresentParent(path);
      Insert(node);
      return Some(node);
    }

    /** The parent lookup of a new node: only the immediate parent, and only if it is in the tree already. */
    method LinkToPresentParent(path: Name)
      requires Valid() && IsAbsolute(path) && path !in live
      modifies `tree
      ensures Valid() && tree == WithChild(live, old(tree), path)
    {
      if |path.segments| > 0 {
        var parentPath := Name(path.prefix, path.segments[..|path.segments| - 1]);
        var parent := Search(None, parentPath, false);
        if parent.Some? && parent.value.path in tree.nodes && path !in tree.nodes {
          tree := Link(tree, Some(parent.value.path), path);
        }
      }
    }

    /** The new node becomes the head of its bucket and the tail of the evaluation-order list. */
    method Insert(node: Node)
      requires Valid() && node == NodeFor(node.path) && IsAbsolute(node.path) && HashFree(live, node.path)
      modifies `buckets, `inOrder, `live
      ensures Valid() && live == old(live) + {node.path}
      ensures inOrder == old(inOrder) + [node]
    {
      InsertKeepsIndex(buckets, live, node.path);
      InsertKeepsOrder(inOrder, live, node.path);
      // A null head is one past the end, which is where the new node goes.
      inOrder := inOrder + [node];
      var b := BucketOf(node.hash);
      buckets := buckets[b := Push(node, buckets[b])];
      live := live + {node.path};
    }

    /** The last reference to a node goes: AmlNamespaceReleaseNode, apart from the tree. */
    method ReleaseNode(node: Node)
      requires Valid() && node.path in live && node == NodeFor(node.path)
      modifies `buckets, `inOrder, `head, `live
      ensures Valid() && live == Step(old(live), Op.Release(node.path))
      ensures inOrder == Without(old(inOrder), node)
      ensures head == HeadWithout(old(inOrder), old(head), node)
    {
      RemoveKeepsIndex(buckets, live, node.path);
      RemoveKeepsOrder(inOrder, live, node.path);
      var b := BucketOf(node.hash);
      buckets := buckets[b := Without(buckets[b], node)];
      head := HeadWithout(inOrder, head, node);
      inOrder := Without(inOrder, node);
      live := live - {node.path};
    }

    // ------------------------------------------------------------- tree

    /** AmlNamespaceTreeInsertNode: every level of the path is present afterwards, each below the last one found. */
    method TreeInsertNode(path: Name)
      requires Valid() && TreeOk(live, tree) && IsAbsolute(path)
      modifies `tree
      ensures Valid() && InsertedBelow(live, old(tree), tree, path, |path.segments| + 1)
    {
      if path in tree.nodes {
        AlreadyInserted(live, tree, path);
        return;
      }
      var last: Option<Name> := None;
      var j := 0;
      while j <= |path.segments|
        invariant Valid() && j <= |path.segments| + 1
        invariant last == LastBelow(live, path, j) && InsertedBelow(live, old(tree), tree, path, j)
      {
        last := TreeInsertLevel(path, j, last, old(tree));
        j := j + 1;
      }
    }

    /** One level of the path. */
    method TreeInsertLevel(path: Name, j: nat, last: Option<Name>, ghost before: Tree) returns (newLast: Option<Name>)
      requires Indexed() && scopes != [] && IsAbsolute(path) && j <= |path.segments|
      requires last == LastBelow(live, path, j) && InsertedBelow(live, before, tree, path, j)
      modifies `tree
      ensures newLast == LastBelow(live, path, j + 1) && InsertedBelow(live, before, tree, path, j + 1)
    {
      var level := Name(path.prefix, path.segments[..j]);
      var node := Search(None, level, false);
      if node.None? {
        InsertSkips(live, before, tree, path, j);
        return last;
      }
      if node.value.path !in tree.nodes {
        InsertLinks(live, before, tree, path, j);
        tree := Link(tree, last, node.value.path);
      } else {
        InsertSkips(live, before, tree, path, j);
      }
      return Some(node.value.path);
    }

    /** AmlNamespaceTreeBuild: inserts the nodes the head pointer leads to, and with them their ancestors. */
    method TreeBuild()
      requires Valid() && TreeOk(live, tree)
      modifies `tree
      ensures Valid() && BuiltFrom(live, old(tree), tree, inOrder[head..])
    {
      ghost var before := tree;
      var i := head;
      BuildStarts();
      while i < |inOrder|
        invariant BuiltUpTo(before, i)
      {
        BuildOne(before, i);
        i := i + 1;
      }
      BuildEnds(before);
    }

    lemma BuildStarts()
      requires Valid() && TreeOk(live, tree)
      ensures BuiltUpTo(tree, head)
    {
      NothingBuilt(live, tree);
      Slices(inOrder, head, head);
    }

    lemma BuildEnds(before: Tree)
      requires BuiltUpTo(before, |inOrder|)
      ensures Valid() && BuiltFrom(live, before, tree, inOrder[head..])
    {
      assert Open(BUILDING, 0);
      Slices(inOrder, head, |inOrder|);
    }

    ghost predicate BuiltUpTo(before: Tree, i: nat)
      reads this
    {
      head <= i <= |inOrder| &&
      forall key :: Open(BUILDING, key) ==> Valid() && BuiltFrom(live, before, tree, inOrder[head..i])
    }

    /** One node of the evaluation-order list. */
    method BuildOne(ghost before: Tree, i: nat)
      requires i < |inOrder| && BuiltUpTo(before, i)
      modifies `tree
      ensures BuiltUpTo(before, i + 1)
    {
      assert Open(BUILDING, 0) && Open(BUILT, 0);
      ghost var mid := tree;
      NodeIsAbsolute(buckets, live, inOrder, i);
      TreeInsertNode(inOrder[i].path);
      BuildStep(live, before, mid, tree, inOrder[head..i], inOrder[i]);
      Slices(inOrder, head, i);
    }

    /** AmlNamespaceParentNode: by the tree if the node is in it, by scanning its path otherwise. */
    method ParentNode(node: Node) returns (parent: Option<Name>)
      requires Valid() && IsAbsolute(node.path)
      ensures TreeOk(live, tree) || node.path !in tree.nodes ==> parent == NearestAbove(live, node.path)
    {
      if node.path in tree.nodes {
        assert Open(TREE, 0);
        return tree.nodes[node.path].parent;
      }
      if |node.path.segments| < 1 {
        return None;
      }
      parent := None;
      var i := 0;
      while i <= |node.path.segments| - 1 && parent == None
        invariant i <= |node.path.segments|
        invariant NearestAbove(live, node.path) ==
                  if parent.Some? || i == |node.path.segments| then parent
                     else Nearest(live, node.path, |node.path.segments| - 1 - i)
      {
        var ancestor := Name(node.path.prefix, node.path.segments[..|node.path.segments| - 1 - i]);
        var found := Search(None, ancestor, false);
        if found.Some? {
          parent := Some(found.value.path);
        }
        i := i + 1;
      }
    }
  }

  /** The path without its last segment is the first k segments of the scope. */
  predicate ParentIs(p: Name, scope: Name, k: nat)
    requires k <= |scope.segments|
  {
    var parent := if |p.segments| > 0 then p.segments[..|p.segments| - 1] else p.segments;
    p.prefix == scope.prefix && parent == scope.segments[..k]
  }

  lemma PathIsUnder(p: Name, scope: Name, n: Seg, k: nat)
    requires 0 < k <= |scope.segments| && ParentIs(p, scope, k) && Local(p) == n
    ensures p == Under(scope, n, k)
  {
  }

  lemma ParentOfUnder(p: Name, scope: Name, n: Seg, k: nat)
    requires k <= |scope.segments|
    ensures p == Under(scope, n, k) ==> ParentIs(p, scope, k) && Local(p) == n
  {
  }

  /** Either the search is over with answer r, or it goes on with the ancestor i levels up. */
  ghost predicate ToDo(live: set<Name>, scope: Name, n: Seg, low: nat, i: nat, r: Option<Name>)
    requires low <= |scope.segments|
  {
    var k := |scope.segments|;
    if r.Some? then FindsUpward(live, scope, n, k, low, r)
    else if k - i < low then FindsUpward(live, scope, n, k, low, None)
    else forall s :: FindsUpward(live, scope, n, k - i, low, s) ==> FindsUpward(live, scope, n, k, low, s)
  }

  /** What one round of the search found, i levels above the scope. */
  ghost predicate FoundAt(live: set<Name>, scope: Name, n: Seg, i: nat, r: Option<Name>)
    requires i <= |scope.segments|
  {
    var k := |scope.segments| - i;
    if k == 0 then FindsUpward(live, scope, n, 0, 0, r)
    else r == if Under(scope, n, k) in live then Some(Under(scope, n, k)) else None
  }

  lemma SearchStep(live: set<Name>, scope: Name, n: Seg, low: nat, i: nat, r: Option<Name>)
    requires low <= |scope.segments| - i && ToDo(live, scope, n, low, i, None) && FoundAt(live, scope, n, i, r)
    ensures ToDo(live, scope, n, low, i + 1, r)
  {
  }

  ghost predicate NoneMatches(bucket: seq<Node>, hash: bv32, n: Seg) {
    forall j :: 0 <= j < |bucket| ==> !(bucket[j].hash == hash && bucket[j].localName == n)
  }

  lemma NodeIsLive(buckets: seq<seq<Node>>, live: set<Name>, b: nat, i: nat)
    requires Indexes(buckets, live) && b < BUCKET_COUNT && i < |buckets[b]|
    ensures buckets[b][i] == NodeFor(buckets[b][i].path) && buckets[b][i].path in live
  {
    assert Open(INDEX, 0);
    assert BucketOk(buckets[b], b);
    var p := buckets[b][i].path;
    assert BucketFor(p) == b;
  }

  lemma LiveIsInBucket(buckets: seq<seq<Node>>, live: set<Name>, p: Name, n: Seg, hash: bv32)
    requires Indexes(buckets, live) && NoneMatches(buckets[BucketOf(hash)], hash, n)
    ensures p in live && Local(p) == n ==> PathHash(p.segments) != hash
  {
    assert Open(INDEX, 0);
    var bucket := buckets[BucketFor(p)];
    if p in live && PathHash(p.segments) == hash {
      var j :| 0 <= j < |bucket| && bucket[j] == NodeFor(p);
    }
  }

  lemma NoRootHit(buckets: seq<seq<Node>>, live: set<Name>, n: Seg)
    requires Indexes(buckets, live)
    requires NoneMatches(buckets[BucketOf(HashKey(n, HASH_SEED))], HashKey(n, HASH_SEED), n)
    ensures forall p :: !RootHit(live, n, p)
  {
    forall p ensures !RootHit(live, n, p) {
      LiveIsInBucket(buckets, live, p, n, HashKey(n, HASH_SEED));
    }
  }

  // ------------------------------------------------ lemmas on the index

  lemma NoHashInBucket(buckets: seq<seq<Node>>, live: set<Name>, hash: bv32)
    requires Indexes(buckets, live)
    requires forall j :: 0 <= j < |buckets[BucketOf(hash)]| ==> buckets[BucketOf(hash)][j].hash != hash
    ensures forall q :: q in live ==> PathHash(q.segments) != hash
  {
    assert Open(INDEX, 0);
    forall q | q in live ensures PathHash(q.segments) != hash {
      var bucket := buckets[BucketFor(q)];
      var j :| 0 <= j < |bucket| && bucket[j] == NodeFor(q);
    }
  }

  lemma AbsoluteResolves(scope: Name, name: Name)
    requires IsAbsolute(scope) && Resolve(scope, name).Some?
    ensures IsAbsolute(Resolve(scope, name).value)
    ensures Resolve(scope, Resolve(scope, name).value) == Resolve(scope, name)
  {
  }

  lemma PushKeepsBucket(bucket: seq<Node>, b: nat, p: Name)
    requires BucketOk(bucket, b) && IsAbsolute(p) && BucketFor(p) == b
    ensures BucketOk(Push(NodeFor(p), bucket), b)
  {
  }

  lemma InsertKeepsIndex(buckets: seq<seq<Node>>, live: set<Name>, p: Name)
    requires Indexes(buckets, live) && IsAbsolute(p)
    ensures Indexes(buckets[BucketFor(p) := Push(NodeFor(p), buckets[BucketFor(p)])], live + {p})
  {
    assert Open(INDEX, 0);
    var b := BucketFor(p);
    var after := buckets[b := Push(NodeFor(p), buckets[b])];
    PushKeepsBucket(buckets[b], b, p);
    forall q ensures q in live + {p} <==> NodeFor(q) in after[BucketFor(q)] {
      assert q in live <==> NodeFor(q) in buckets[BucketFor(q)];
    }
  }

  lemma RemoveKeepsIndex(buckets: seq<seq<Node>>, live: set<Name>, p: Name)
    requires Indexes(buckets, live)
    ensures Indexes(buckets[BucketFor(p) := Without(buckets[BucketFor(p)], NodeFor(p))], live - {p})
  {
    assert Open(INDEX, 0);
    var b := BucketFor(p);
    var after := buckets[b := Without(buckets[b], NodeFor(p))];
    WithoutKeepsBucket(buckets[b], b, NodeFor(p));
    forall q ensures q in live - {p} <==> NodeFor(q) in after[BucketFor(q)] {
      assert q in live <==> NodeFor(q) in buckets[BucketFor(q)];
    }
  }

  lemma WithoutKeepsBucket(bucket: seq<Node>, b: nat, node: Node)
    requires BucketOk(bucket, b)
    ensures BucketOk(Without(bucket, node), b)
  {
    var rest := Without(bucket, node);
    forall i | 0 <= i < |rest| ensures rest[i] in bucket {
      assert rest[i] in rest;
    }
  }

  lemma InsertKeepsOrder(list: seq<Node>, live: set<Name>, p: Name)
    requires Ordered(list, live) && HashFree(live, p)
    ensures Ordered(list + [NodeFor(p)], live + {p})
  {
  }

  function IndexOf<T(==)>(s: seq<T>, x: T): (k: nat)
    requires x in s
    ensures k < |s| && s[k] == x
  {
    if s[0] == x then 0 else 1 + IndexOf(s[1..], x)
  }

  /** Where the head pointer is after a release: lost when it pointed at the released node. */
  function HeadWithout(list: seq<Node>, head: nat, node: Node): nat {
    if node !in list then head
    else
      var k := IndexOf(list, node);
      if head == k then |list| - 1 else if head > k then head - 1 else head
  }

  lemma RemoveKeepsOrder(list: seq<Node>, live: set<Name>, p: Name)
    requires Ordered(list, live) && p in live
    ensures Ordered(Without(list, NodeFor(p)), live - {p})
    ensures |Without(list, NodeFor(p))| == |list| - 1 && NodeFor(p) in list
  {
    assert Open(ORDER, 0);
    RemoveKeepsList(list, live, p);
  }

  lemma RemoveKeepsList(list: seq<Node>, live: set<Name>, p: Name)
    requires ListsLive(list, live) && p in live
    ensures ListsLive(Without(list, NodeFor(p)), live - {p})
    ensures |Without(list, NodeFor(p))| == |list| - 1
  {
    var k := IndexOf(list, NodeFor(p));
    WithoutDistinct(list, k);
    var r := Without(list, NodeFor(p));
    forall i | 0 <= i < |r|
      ensures r[i] == NodeFor(r[i].path)
    {
      assert r[i] in r;
    }
  }

  lemma WithoutDistinct(s: seq<Node>, k: nat)
    requires k < |s| && forall i, j :: 0 <= i < j < |s| ==> s[i] != s[j]
    ensures |Without(s, s[k])| == |s| - 1
    ensures forall i, j :: 0 <= i < j < |s| - 1 ==> Without(s, s[k])[i] != Without(s, s[k])[j]
  {
    WithoutSplits(s, k);
  }

  lemma {:induction false} WithoutSplits(s: seq<Node>, k: nat)
    requires k < |s| && s[k] !in s[..k] && s[k] !in s[k + 1..]
    ensures Without(s, s[k]) == s[..k] + s[k + 1..]
    decreases |s|
  {
    if k == 0 {
      WithoutAbsent(s[1..], s[0]);
    } else {
      var rest := s[1..];
      assert rest[..k - 1] == s[1..k] && rest[k..] == s[k + 1..];
      assert s[..k] == [s[0]] + s[1..k];
      WithoutSplits(rest, k - 1);
    }
  }

  lemma {:induction false} WithoutAbsent(s: seq<Node>, x: Node)
    requires x !in s
    ensures Without(s, x) == s
    decreases |s|
  {
    if s != [] {
      WithoutAbsent(s[1..], x);
    }
  }

  // ------------------------------------------------- lemmas on the build

  /** q is a prefix of the path of one of the nodes. */
  ghost predicate Covers(nodes: seq<Node>, q: Name) {
    exists k :: 0 <= k < |nodes| && PrefixBelow(q, nodes[k].path, |nodes[k].path.segments| + 1)
  }

  /** The build has inserted those nodes, and with them their live prefixes, and nothing else. */
  ghost predicate BuiltFrom(live: set<Name>, before: Tree, after: Tree, nodes: seq<Node>) {
    forall key :: Open(BUILT, key) ==> BuiltFromOpen(live, before, after, nodes)
  }

  ghost predicate BuiltFromOpen(live: set<Name>, before: Tree, after: Tree, nodes: seq<Node>) {
    TreeOk(live, after) && Grown(before, after) &&
    forall q :: q in after.nodes <==> q in before.nodes || (q in live && Covers(nodes, q))
  }

  lemma NothingBuilt(live: set<Name>, t: Tree)
    requires TreeOk(live, t)
    ensures BuiltFrom(live, t, t, [])
  {
  }

  lemma Slices<T>(s: seq<T>, lo: nat, i: nat)
    requires lo <= i <= |s|
    ensures i == lo ==> s[lo..i] == []
    ensures i == |s| ==> s[lo..i] == s[lo..]
    ensures i < |s| ==> s[lo..i] + [s[i]] == s[lo..i + 1]
  {
  }

  lemma CoversOneMore(nodes: seq<Node>, node: Node, q: Name)
    ensures Covers(nodes + [node], q) <==> Covers(nodes, q) || PrefixBelow(q, node.path, |node.path.segments| + 1)
  {
    if Covers(nodes, q) {
      var k :| 0 <= k < |nodes| && PrefixBelow(q, nodes[k].path, |nodes[k].path.segments| + 1);
      assert (nodes + [node])[k] == nodes[k];
    }
    assert (nodes + [node])[|nodes|] == node;
  }

  lemma BuildStep(live: set<Name>, before: Tree, mid: Tree, after: Tree, nodes: seq<Node>, node: Node)
    requires BuiltFrom(live, before, mid, nodes)
    requires InsertedBelow(live, mid, after, node.path, |node.path.segments| + 1)
    ensures BuiltFrom(live, before, after, nodes + [node])
  {
    assert Open(BUILT, 0);
    GrownTransitive(before, mid, after);
    forall q ensures q in after.nodes <==> q in before.nodes || (q in live && Covers(nodes + [node], q)) {
      CoversOneMore(nodes, node, q);
    }
  }

  lemma NodeIsAbsolute(buckets: seq<seq<Node>>, live: set<Name>, list: seq<Node>, i: nat)
    requires Indexes(buckets, live) && Ordered(list, live) && i < |list|
    ensures IsAbsolute(list[i].path)
  {
    assert Open(INDEX, 0) && Open(ORDER, 0);
    var p := list[i].path;
    assert list[i] == NodeFor(p) && p in live;
    var bucket := buckets[BucketFor(p)];
    var j :| 0 <= j < |bucket| && bucket[j] == NodeFor(p);
    assert BucketOk(bucket, BucketFor(p));
  }

  /** A listed node is covered by any part of the list it is in. */
  lemma CoversItself(nodes: seq<Node>, k: nat)
    requires k < |nodes|
    ensures Covers(nodes, nodes[k].path)
  {
    var p := nodes[k].path;
    assert Prefix(p, |p.segments|) == p;
    assert PrefixBelow(p, p, |p.segments| + 1);
  }

  /** What a build from nothing puts in the tree. */
  lemma BuiltNodes(live: set<Name>, t: Tree, nodes: seq<Node>, q: Name)
    requires BuiltFrom(live, Tree(map[], []), t, nodes)
    ensures q in t.nodes <==> q in live && Covers(nodes, q)
  {
    assert Open(BUILT, 0);
  }

  /** Every listed node before the head is a prefix of one from the head on. */
  ghost predicate HeadCovers(list: seq<Node>, head: nat)
    requires head <= |list|
  {
    forall i :: 0 <= i < head ==> Covers(list[head..], list[i].path)
  }

  /**
   A build from nothing hangs whatever it puts in the tree exactly once, below the live
   node of its longest proper prefix, and puts every live node there exactly if each node
   before the head of the list is a prefix of one from the head on.  So it does when the
   head is in place; when it has been lost, as it is by releasing the first listed node,
   the tree stays empty.
   */
  lemma BuildIsComplete(live: set<Name>, t: Tree, list: seq<Node>, head: nat)
    requires head <= |list| && ListsLive(list, live) && BuiltFrom(live, Tree(map[], []), t, list[head..])
    ensures (forall p :: p in live ==> p in t.nodes) <==> HeadCovers(list, head)
    ensures forall p :: p in t.nodes ==> p in live
    ensures head == 0 ==> forall p :: p in t.nodes <==> p in live
    ensures head == |list| ==> forall p :: p !in t.nodes
    ensures forall p :: p in t.nodes ==> Hangs(live, t, p) && OnceBelow(t, p, NearestAbove(live, p))
  {
    forall p ensures p in t.nodes <==> p in live && Covers(list[head..], p) {
      BuiltNodes(live, t, list[head..], p);
    }
    CompleteIff(live, list, head);
    assert Open(BUILT, 0) && Open(TREE, 0);
    forall p | p in t.nodes ensures Hangs(live, t, p) && OnceBelow(t, p, NearestAbove(live, p)) {
      assert Hangs(live, t, p) && Lists(t, t.nodes[p].parent);
    }
  }

  lemma CompleteIff(live: set<Name>, list: seq<Node>, head: nat)
    requires head <= |list| && ListsLive(list, live)
    ensures (forall p :: p in live ==> Covers(list[head..], p)) <==> HeadCovers(list, head)
  {
    forall i | 0 <= i < |list| ensures list[i].path in live {
      assert list[i] == NodeFor(list[i].path);
    }
    if HeadCovers(list, head) {
      forall p | p in live ensures Covers(list[head..], p) {
        var i :| 0 <= i < |list| && list[i] == NodeFor(p);
        if i >= head {
          CoversItself(list[head..], i - head);
        }
      }
    }
  }

  /** Two nodes; the first is released; a build leaves the other out. */
  lemma ReleasedFirstLosesOther(p: Name, q: Name, t: Tree)
    requires p != q
    ensures var before := [NodeFor(p), NodeFor(q)];
            var list := Without(before, NodeFor(p));
            var head := HeadWithout(before, 0, NodeFor(p));
            ListsLive(before, {p, q}) && ListsLive(list, {q}) && head <= |list| &&
            (BuiltFrom({q}, Tree(map[], []), t, list[head..]) ==> q !in t.nodes)
  {
    var before := [NodeFor(p), NodeFor(q)];
    assert NodeFor(p).path != NodeFor(q).path;
    assert before[0] == NodeFor(p) && before[1] == NodeFor(q);
    assert before[1..] == [NodeFor(q)] && before[1..][1..] == [];
    WithoutAbsent([NodeFor(q)], NodeFor(p));
    assert Without(before, NodeFor(p)) == [NodeFor(q)];
    if BuiltFrom({q}, Tree(map[], []), t, []) {
      BuiltNodes({q}, t, [], q);
    }
  }

  /** p is in the child list of that parent, at one place only, and in no other child list. */
  ghost predicate OnceBelow(t: Tree, p: Name, parent: Option<Name>) {
    Present(t, parent) && NoRepeats(ChildrenOf(t, parent)) &&
    forall q :: Present(t, q) ==> (p in ChildrenOf(t, q) <==> q == parent)
  }
}
