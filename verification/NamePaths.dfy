/**
 Absolute paths of the namespace and their hashes (src/aml_namespace.c:69-307).
 A name has prefix characters and segments; resolving it against a scope gives the
 absolute path, and folding the segment hash over that path gives its hash.
 */
module NamePaths {
  import opened Hash

  /** A name as the decoder delivers it; the prefix characters are whatever it read. */
  datatype Name = Name(prefix: string, segments: seq<Seg>)

  datatype Option<T> = None | Some(value: T)

  const ROOT_CHAR: char := '\\'
  const PARENT_CHAR: char := '^'

  /** 'AmlH', with the value compilers give that character constant. */
  const HASH_SEED: bv32 := 0x416d6c48

  /** The prefix says that the path starts at the root. */
  predicate IsAbsolute(n: Name) {
    n.prefix != [] && n.prefix[0] == ROOT_CHAR
  }

  predicate OnlyParents(prefix: string) {
    prefix == [] || (prefix[0] == PARENT_CHAR && OnlyParents(prefix[1..]))
  }

  /** The absolute path a name means in a scope, with no search rule applied. */
  function Resolve(scope: Name, name: Name): Option<Name> {
    if IsAbsolute(name) then Some(name)
    else if !OnlyParents(name.prefix) || |name.prefix| > |scope.segments| then None
    else Some(Name(scope.prefix, scope.segments[..|scope.segments| - |name.prefix|] + name.segments))
  }

  /** The hash of more segments on top of a hash. */
  function Fold(segments: seq<Seg>, seed: bv32): bv32
    decreases |segments|
  {
    if segments == [] then seed
    else HashKey(segments[|segments| - 1], Fold(segments[..|segments| - 1], seed))
  }

  function PathHash(segments: seq<Seg>): bv32 {
    Fold(segments, HASH_SEED)
  }

  /** AmlNamespaceConvertNameStringToAbsolutePath. */
  method ConvertToAbsolutePath(scope: Name, input: Name) returns (ok: bool, path: Name)
    ensures ok <==> Resolve(scope, input).Some?
    ensures ok ==> path == Resolve(scope, input).value
  {
    if |input.prefix| > 0 && input.prefix[0] == ROOT_CHAR {
      return true, input;
    }
    var back := 0;
    while back < |input.prefix|
      invariant back <= |input.prefix|
      invariant OnlyParents(input.prefix[back..]) == OnlyParents(input.prefix)
    {
      if input.prefix[back] != PARENT_CHAR {
        return false, input;
      }
      back := back + 1;
    }
    if back > |scope.segments| {
      return false, input;
    }
    var parentCount := |scope.segments| - back;
    var output: seq<Seg> := [];
    var i := 0;
    while i < parentCount
      invariant i <= parentCount && output == scope.segments[..i]
    {
      output := output + [scope.segments[i]];
      i := i + 1;
    }
    i := 0;
    while i < |input.segments|
      invariant i <= |input.segments| && output == scope.segments[..parentCount] + input.segments[..i]
    {
      output := output + [input.segments[i]];
      i := i + 1;
    }
    return true, Name(scope.prefix, output);
  }

  /** AmlNamespaceHashPrefixedNameString: hashes the resolved path without building it. */
  method HashPrefixedName(scope: Name, name: Name) returns (ok: bool, hash: bv32)
    ensures ok <==> Resolve(scope, name).Some?
    ensures ok ==> hash == PathHash(Resolve(scope, name).value.segments)
  {
    hash := HASH_SEED;
    var back := 0;
    var isRelative := true;
    if |name.prefix| > 0 {
      if name.prefix[0] == PARENT_CHAR {
        while back < |name.prefix|
          invariant back <= |name.prefix|
          invariant OnlyParents(name.prefix[back..]) == OnlyParents(name.prefix)
        {
          if name.prefix[back] != PARENT_CHAR {
            return false, hash;
          }
          back := back + 1;
        }
      } else if name.prefix[0] != ROOT_CHAR {
        return false, hash;
      }
      isRelative := name.prefix[0] != ROOT_CHAR;
    }
    if back > |scope.segments| {
      return false, hash;
    }
    ghost var base: seq<Seg> := [];
    if isRelative {
      hash := FoldSegments(scope.segments[..|scope.segments| - back], hash);
      base := scope.segments[..|scope.segments| - back];
    }
    hash := FoldSegments(name.segments, hash);
    FoldAppends(base, name.segments, HASH_SEED);
    assert [] + name.segments == name.segments;
    return true, hash;
  }

  /** The accumulation loop both parts of the path go through. */
  method FoldSegments(segments: seq<Seg>, seed: bv32) returns (hash: bv32)
    ensures hash == Fold(segments, seed)
  {
    hash := seed;
    var i := 0;
    while i < |segments|
      invariant i <= |segments| && hash == Fold(segments[..i], seed)
    {
      assert segments[..i + 1][..i] == segments[..i];
      hash := HashKey(segments[i], hash);
      i := i + 1;
    }
    assert segments[..i] == segments;
  }

  /** Hashing is compositional: folding a path's parts one after the other folds the whole path. */
  lemma {:induction false} FoldAppends(a: seq<Seg>, b: seq<Seg>, seed: bv32)
    ensures Fold(a + b, seed) == Fold(b, Fold(a, seed))
    decreases |b|
  {
    if b == [] {
      assert a + b == a;
    } else {
      var last := |b| - 1;
      assert (a + b)[..|a + b| - 1] == a + b[..last];
      FoldAppends(a, b[..last], seed);
    }
  }

  /** From different hashes the same segments lead to different hashes. */
  lemma {:induction false} FoldInjectiveInSeed(segments: seq<Seg>, seed1: bv32, seed2: bv32)
    requires Fold(segments, seed1) == Fold(segments, seed2)
    ensures seed1 == seed2
    decreases |segments|
  {
    if segments != [] {
      var rest := segments[..|segments| - 1];
      InjectiveInSeed(segments[|segments| - 1], Fold(rest, seed1), Fold(rest, seed2));
      FoldInjectiveInSeed(rest, seed1, seed2);
    }
  }

  /** Paths of the same length that differ in exactly one segment never share a hash. */
  lemma NearPathsNeverCollide(common: seq<Seg>, a: Seg, b: Seg, rest: seq<Seg>)
    requires a != b
    ensures PathHash(common + [a] + rest) != PathHash(common + [b] + rest)
  {
    var h := PathHash(common);
    FoldAppends(common + [a], rest, HASH_SEED);
    FoldAppends(common + [b], rest, HASH_SEED);
    FoldAppends(common, [a], HASH_SEED);
    FoldAppends(common, [b], HASH_SEED);
    FoldOne(a, h);
    FoldOne(b, h);
    if PathHash(common + [a] + rest) == PathHash(common + [b] + rest) {
      FoldInjectiveInSeed(rest, HashKey(a, h), HashKey(b, h));
      InjectiveInKey(a, b, h);
    }
  }

  lemma FoldOne(a: Seg, seed: bv32)
    ensures Fold([a], seed) == HashKey(a, seed)
  {
  }

  /** Parents with different hashes give the same child name different hashes. */
  lemma SameChildOfDifferentParents(p: seq<Seg>, q: seq<Seg>, n: Seg)
    ensures PathHash(p + [n]) == PathHash(q + [n]) <==> PathHash(p) == PathHash(q)
  {
    FoldAppends(p, [n], HASH_SEED);
    FoldAppends(q, [n], HASH_SEED);
    FoldOne(n, PathHash(p));
    FoldOne(n, PathHash(q));
    if PathHash(p + [n]) == PathHash(q + [n]) {
      InjectiveInSeed(n, PathHash(p), PathHash(q));
    }
  }
}
