/**
 The doubly linked chunk lists of the arena (src/aml_arena.c:40-105), with the chunks'
 links in a map from chunk to record.  Chain says that a list's pointers spell a given
 sequence of chunks.
 */
module ChunkList {
  import opened Folding

  datatype Option<T> = None | Some(value: T)

  datatype Chunk = Chunk(next: Option<nat>, prev: Option<nat>, addr: nat, total: nat, used: nat)

  datatype List = List(first: Option<nat>, last: Option<nat>)

  type Chunks = map<nat, Chunk>

  const EMPTY: List := List(None, None)

  function At(ids: seq<nat>, i: int): Option<nat> {
    if 0 <= i < |ids| then Some(ids[i]) else None
  }

  ghost predicate Linked(m: Chunks, ids: seq<nat>, i: nat)
    requires i < |ids|
  {
    ids[i] in m && m[ids[i]].next == At(ids, i + 1) && m[ids[i]].prev == At(ids, i - 1)
  }

  ghost predicate Distinct(ids: seq<nat>) {
    forall i, j :: 0 <= i < j < |ids| ==> ids[i] != ids[j]
  }

  /** The list's pointers spell the chunks of ids, in both directions. */
  ghost predicate Chain(m: Chunks, l: List, ids: seq<nat>) {
    l.first == At(ids, 0) && l.last == At(ids, |ids| - 1) && forall key :: Open(CHAIN, key) ==> ChainOpen(m, ids)
  }

  ghost predicate ChainOpen(m: Chunks, ids: seq<nat>) {
    Distinct(ids) && forall i :: 0 <= i < |ids| ==> Linked(m, ids, i)
  }

  /** The chunks of ids have the same links in both maps. */
  ghost predicate SameLinks(m: Chunks, n: Chunks, ids: seq<nat>) {
    forall i :: 0 <= i < |ids| ==> ids[i] in m ==>
      ids[i] in n && n[ids[i]].next == m[ids[i]].next && n[ids[i]].prev == m[ids[i]].prev
  }

  lemma ChainSame(m: Chunks, n: Chunks, l: List, ids: seq<nat>)
    requires Chain(m, l, ids) && SameLinks(m, n, ids)
    ensures Chain(n, l, ids)
  {
    assert Open(CHAIN, 0);
    forall i | 0 <= i < |ids| ensures Linked(n, ids, i) {
      assert Linked(m, ids, i);
    }
  }

  lemma ChainMember(m: Chunks, l: List, ids: seq<nat>, i: nat)
    requires Chain(m, l, ids) && i < |ids|
    ensures Linked(m, ids, i)
  {
    assert Open(CHAIN, 0);
  }

  lemma ChainDistinct(m: Chunks, l: List, ids: seq<nat>)
    requires Chain(m, l, ids)
    ensures Distinct(ids)
  {
    assert Open(CHAIN, 0);
  }

  // --------------------------------------------------------------- insert

  /** AmlArenaChunkListInsert. */
  function Insert(m: Chunks, l: List, e: nat): (r: (Chunks, List))
    requires e in m && (l.last.Some? ==> l.last.value in m)
    ensures r.0.Keys == m.Keys
  {
    var m1 := if l.last.Some? then m[l.last.value := m[l.last.value].(next := Some(e))] else m;
    (m1[e := m1[e].(prev := l.last)], List(if l.first.None? then Some(e) else l.first, Some(e)))
  }

  lemma InsertChain(m: Chunks, l: List, ids: seq<nat>, e: nat)
    requires Chain(m, l, ids) && e in m && e !in ids && m[e].next == None
    ensures l.last.Some? ==> l.last.value in m
    ensures Chain(Insert(m, l, e).0, Insert(m, l, e).1, ids + [e])
  {
    assert Open(CHAIN, 0);
    var k := |ids|;
    if k > 0 {
      assert Linked(m, ids, k - 1);
    }
    var n := Insert(m, l, e).0;
    var all := ids + [e];
    forall i | 0 <= i < |all| ensures Linked(n, all, i) {
      if i < k {
        assert Linked(m, ids, i);
      }
    }
  }

  lemma InsertElsewhere(m: Chunks, l: List, ids: seq<nat>, e: nat, others: seq<nat>)
    requires Chain(m, l, ids) && e in m && e !in others && forall i :: 0 <= i < |others| ==> others[i] !in ids
    ensures l.last.Some? ==> l.last.value in m
    ensures SameLinks(m, Insert(m, l, e).0, others)
  {
    if ids != [] {
      ChainMember(m, l, ids, |ids| - 1);
    }
  }

  // --------------------------------------------------------------- remove

  predicate Removable(m: Chunks, e: nat) {
    e in m && (m[e].prev.Some? ==> m[e].prev.value in m) && (m[e].next.Some? ==> m[e].next.value in m)
  }

  /** AmlArenaChunkListRemove. */
  function Remove(m: Chunks, l: List, e: nat): (r: (Chunks, List))
    requires Removable(m, e)
    ensures r.0.Keys == m.Keys
  {
    var c := m[e];
    var m1 := if c.prev.Some? then m[c.prev.value := m[c.prev.value].(next := c.next)] else m;
    var m2 := if c.next.Some? then m1[c.next.value := m1[c.next.value].(prev := c.prev)] else m1;
    (m2[e := m2[e].(prev := None, next := None)],
     List(if l.first == Some(e) then c.next else l.first, if l.last == Some(e) then c.prev else l.last))
  }

  function Drop(ids: seq<nat>, k: nat): seq<nat>
    requires k < |ids|
  {
    ids[..k] + ids[k + 1..]
  }

  lemma RemoveReady(m: Chunks, l: List, ids: seq<nat>, k: nat)
    requires Chain(m, l, ids) && k < |ids|
    ensures ids[k] in m
    ensures m[ids[k]].prev == At(ids, k - 1) && m[ids[k]].next == At(ids, k + 1)
    ensures k > 0 ==> ids[k - 1] in m
    ensures k + 1 < |ids| ==> ids[k + 1] in m
  {
    ChainMember(m, l, ids, k);
    if k > 0 {
      ChainMember(m, l, ids, k - 1);
    }
    if k + 1 < |ids| {
      ChainMember(m, l, ids, k + 1);
    }
  }

  lemma RemoveLinks(m: Chunks, l: List, ids: seq<nat>, k: nat, i: nat)
    requires Chain(m, l, ids) && k < |ids| && i < |ids| - 1
    requires Removable(m, ids[k])
    ensures Linked(Remove(m, l, ids[k]).0, Drop(ids, k), i)
  {
    RemoveReady(m, l, ids, k);
    ChainDistinct(m, l, ids);
    var j := if i < k then i else i + 1;
    ChainMember(m, l, ids, j);
    assert Drop(ids, k)[i] == ids[j];
  }

  lemma RemoveChain(m: Chunks, l: List, ids: seq<nat>, k: nat)
    requires Chain(m, l, ids) && k < |ids|
    ensures Removable(m, ids[k])
    ensures Chain(Remove(m, l, ids[k]).0, Remove(m, l, ids[k]).1, Drop(ids, k))
    ensures Remove(m, l, ids[k]).0[ids[k]].next == None && ids[k] !in Drop(ids, k)
  {
    RemoveReady(m, l, ids, k);
    ChainDistinct(m, l, ids);
    var n, rest := Remove(m, l, ids[k]).0, Drop(ids, k);
    forall i | 0 <= i < |rest| ensures Linked(n, rest, i) {
      RemoveLinks(m, l, ids, k, i);
    }
  }

  lemma RemoveElsewhere(m: Chunks, l: List, ids: seq<nat>, k: nat, others: seq<nat>)
    requires Chain(m, l, ids) && k < |ids| && forall i :: 0 <= i < |others| ==> others[i] !in ids
    requires Removable(m, ids[k])
    ensures SameLinks(m, Remove(m, l, ids[k]).0, others)
  {
    RemoveReady(m, l, ids, k);
  }

  // --------------------------------------------------------- moving chains

  /** The whole active chain goes behind the free chain: AmlArenaReset. */
  function Append(m: Chunks, active: List, free: List): (r: (Chunks, List))
    requires active.first.Some? ==> active.first.value in m
    requires free.last.Some? ==> free.last.value in m
    ensures r.0.Keys == m.Keys
  {
    if active.first.None? then (m, free)
    else
      var head := active.first.value;
      var m1 := m[head := m[head].(prev := free.last)];
      (if free.last.Some? then m1[free.last.value := m1[free.last.value].(next := Some(head))] else m1,
       List(if free.first.Some? then free.first else Some(head), active.last))
  }

  lemma AppendChain(m: Chunks, active: List, a: seq<nat>, free: List, f: seq<nat>)
    requires Chain(m, active, a) && Chain(m, free, f) && forall i :: 0 <= i < |a| ==> a[i] !in f
    ensures active.first.Some? ==> active.first.value in m
    ensures free.last.Some? ==> free.last.value in m
    ensures Chain(Append(m, active, free).0, Append(m, active, free).1, f + a)
  {
    assert Open(CHAIN, 0);
    if a == [] {
      assert f + a == f;
      if f != [] {
        assert Linked(m, f, |f| - 1);
      }
    } else {
      assert Linked(m, a, 0);
      if f != [] {
        assert Linked(m, f, |f| - 1);
      }
      var n, all := Append(m, active, free).0, f + a;
      forall i | 0 <= i < |all| ensures Linked(n, all, i) {
        if i < |f| {
          assert Linked(m, f, i);
        } else {
          assert Linked(m, a, i - |f|);
        }
      }
    }
  }

  /**
   What a rollback does to the lists when chunks follow the snapshot's chunk: the rest
   of the active chain goes behind the free chain, and both tails are set as the code sets them.
   */
  function Transplant(m: Chunks, active: List, free: List, head: nat): (r: (Chunks, List, List))
    requires head in m && (m[head].prev.Some? ==> m[head].prev.value in m) && (free.last.Some? ==> free.last.value in m)
    ensures r.0.Keys == m.Keys
  {
    var m1 := if m[head].prev.Some? then
                var unlinked := m[m[head].prev.value := m[m[head].prev.value].(next := None)];
                unlinked[head := unlinked[head].(prev := None)]
              else m;
    var kept := List(if active.first != Some(head) then active.first else None,
                     if active.last != Some(head) then active.last else None);
    var m2 := if free.last.Some? then
                var linked := m1[head := m1[head].(prev := free.last)];
                linked[free.last.value := linked[free.last.value].(next := Some(head))]
              else m1;
    (m2, kept, List(if free.first.Some? then free.first else Some(head), kept.last))
  }

  lemma TransplantReady(m: Chunks, active: List, keep: seq<nat>, moved: seq<nat>, free: List, f: seq<nat>)
    requires Chain(m, active, keep + moved) && Chain(m, free, f) && keep != [] && moved != []
    ensures moved[0] in m && m[moved[0]].prev == Some(keep[|keep| - 1]) && keep[|keep| - 1] in m
    ensures m[keep[|keep| - 1]].next == Some(moved[0])
    ensures free.last.Some? ==> free.last.value in m
  {
    ChainMember(m, active, keep + moved, |keep|);
    ChainMember(m, active, keep + moved, |keep| - 1);
    if f != [] {
      ChainMember(m, free, f, |f| - 1);
    }
  }

  /** The links are right afterwards, in both chains. */
  lemma TransplantLinks(m: Chunks, active: List, keep: seq<nat>, moved: seq<nat>, free: List, f: seq<nat>)
    requires Chain(m, active, keep + moved) && Chain(m, free, f) && keep != [] && moved != []
    requires forall i :: 0 <= i < |f| ==> f[i] !in keep + moved
    requires moved[0] in m && m[moved[0]].prev == Some(keep[|keep| - 1]) && keep[|keep| - 1] in m
    requires free.last.Some? ==> free.last.value in m
    ensures ChainOpen(Transplant(m, active, free, moved[0]).0, keep)
    ensures ChainOpen(Transplant(m, active, free, moved[0]).0, f + moved)
  {
    ChainDistinct(m, active, keep + moved);
    ChainDistinct(m, free, f);
    forall i | 0 <= i < |keep| ensures Linked(Transplant(m, active, free, moved[0]).0, keep, i) {
      KeptLinked(m, active, keep, moved, free, f, i);
    }
    forall i | 0 <= i < |f + moved| ensures Linked(Transplant(m, active, free, moved[0]).0, f + moved, i) {
      MovedLinked(m, active, keep, moved, free, f, i);
    }
    Parts(keep, moved, f);
  }

  lemma Parts(keep: seq<nat>, moved: seq<nat>, f: seq<nat>)
    requires Distinct(keep + moved) && Distinct(f) && forall i :: 0 <= i < |f| ==> f[i] !in keep + moved
    ensures Distinct(keep) && Distinct(moved) && Distinct(f + moved)
    ensures forall i, j :: 0 <= i < |keep| && 0 <= j < |moved| ==> keep[i] != moved[j]
    ensures forall i :: 0 <= i < |f| ==> f[i] !in keep && f[i] !in moved
  {
    var all := keep + moved;
    assert forall i :: 0 <= i < |keep| ==> all[i] == keep[i];
    assert forall i :: 0 <= i < |moved| ==> all[|keep| + i] == moved[i];
  }

  lemma KeptLinked(m: Chunks, active: List, keep: seq<nat>, moved: seq<nat>, free: List, f: seq<nat>, i: nat)
    requires Chain(m, active, keep + moved) && Chain(m, free, f) && moved != [] && i < |keep|
    requires Distinct(keep + moved) && Distinct(f) && forall i :: 0 <= i < |f| ==> f[i] !in keep + moved
    requires moved[0] in m && m[moved[0]].prev == Some(keep[|keep| - 1]) && keep[|keep| - 1] in m
    requires free.last.Some? ==> free.last.value in m
    ensures Linked(Transplant(m, active, free, moved[0]).0, keep, i)
  {
    Parts(keep, moved, f);
    ChainMember(m, active, keep + moved, i);
    assert (keep + moved)[i] == keep[i];
    assert free.last.Some? ==> free.last.value == f[|f| - 1];
  }

  lemma MovedLinked(m: Chunks, active: List, keep: seq<nat>, moved: seq<nat>, free: List, f: seq<nat>, i: nat)
    requires Chain(m, active, keep + moved) && Chain(m, free, f) && keep != [] && moved != [] && i < |f + moved|
    requires Distinct(keep + moved) && Distinct(f) && forall i :: 0 <= i < |f| ==> f[i] !in keep + moved
    requires moved[0] in m && m[moved[0]].prev == Some(keep[|keep| - 1]) && keep[|keep| - 1] in m
    requires free.last.Some? ==> free.last.value in m
    ensures Linked(Transplant(m, active, free, moved[0]).0, f + moved, i)
  {
    Parts(keep, moved, f);
    if i < |f| {
      ChainMember(m, free, f, i);
    } else {
      ChainMember(m, active, keep + moved, |keep| + i - |f|);
      assert (keep + moved)[|keep| + i - |f|] == moved[i - |f|];
    }
  }

  /** The tails are not: the active one never is, the free one only when a single chunk moved. */
  lemma TransplantTails(m: Chunks, active: List, keep: seq<nat>, moved: seq<nat>, free: List, f: seq<nat>)
    requires Chain(m, active, keep + moved) && Chain(m, free, f) && keep != [] && moved != []
    requires forall i :: 0 <= i < |f| ==> f[i] !in keep + moved
    requires moved[0] in m && m[moved[0]].prev == Some(keep[|keep| - 1]) && keep[|keep| - 1] in m
    requires free.last.Some? ==> free.last.value in m
    ensures var r := Transplant(m, active, free, moved[0]);
            !Chain(r.0, r.1, keep) && r.1.first == Some(keep[0]) &&
            r.1.last == (if |moved| == 1 then None else Some(moved[|moved| - 1]))
    ensures var r := Transplant(m, active, free, moved[0]);
            Chain(r.0, r.2, f + moved) <==> |moved| != 1
  {
    var all := keep + moved;
    ChainDistinct(m, active, all);
    TransplantLinks(m, active, keep, moved, free, f);
    assert all[|all| - 1] == moved[|moved| - 1] && all[|keep|] == moved[0] && all[|keep| - 1] == keep[|keep| - 1];
    assert all[0] == keep[0];
    var r := Transplant(m, active, free, moved[0]);
    assert (f + moved)[|f + moved| - 1] == moved[|moved| - 1];
    assert At(f + moved, 0) == r.2.first;
    if |moved| != 1 {
      assert Chain(r.0, r.2, f + moved);
    }
  }
}
