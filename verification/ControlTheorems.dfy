/**
 Facts about the structured semantics the machine follows: which events can come out
 of a statement, what a Break in a called method does, and what the limits change.
 */
module ControlTheorems {
  import opened Control

  /** A Break or Continue comes out only inside a loop, a Return only inside a method. */
  ghost predicate Allowed<S(!new)>(r: Option<End<S>>, level: nat, inMethod: bool) {
    r.Some? ==>
      ((r.value.event == BreakEvent || r.value.event == ContinueEvent) ==> level > 0) &&
      (r.value.event == ReturnEvent ==> inMethod)
  }

  lemma {:induction false} EventsAllowed<S(!new)>(c: Context<S>, s: Stmt, store: S, w: Where)
    ensures Allowed(Exec(c, s, store, w), w.level, w.inMethod)
    ensures s.While? && Exec(c, s, store, w).Some? ==>
              Exec(c, s, store, w).value.event in {NoEvent, ReturnEvent}
    ensures s.Call? && Exec(c, s, store, w).Some? ==>
              Exec(c, s, store, w).value.event == NoEvent
    decreases w.room, 1, 0
  {
    match s
    case If(test, body) =>
      var t := c.world.test(test, store);
      if t.Some? {
        BodyAllowed(c, body, t.value.1, w);
      }
    case IfElse(test, body, other) =>
      var t := c.world.test(test, store);
      if t.Some? {
        BodyAllowed(c, body, t.value.1, w.(last := false));
        BodyAllowed(c, other, t.value.1, w);
      }
    case While(test, body) => LoopAllowed(c, test, body, store, w, 0);
    case _ =>
  }

  lemma {:induction false} AllAllowed<S(!new)>(c: Context<S>, ss: seq<Stmt>, store: S, w: Where)
    ensures Allowed(ExecAll(c, ss, store, w), w.level, w.inMethod)
    decreases w.room, 2, |ss|
  {
    if ss != [] {
      EventsAllowed(c, ss[0], store, First(w, |ss|));
      var r := Exec(c, ss[0], store, First(w, |ss|));
      if r.Some? {
        AllAllowed(c, ss[1..], r.value.store, w);
      }
    }
  }

  lemma {:induction false} BodyAllowed<S(!new)>(c: Context<S>, ss: seq<Stmt>, store: S, w: Where)
    ensures Allowed(Body(c, ss, store, w), w.level, w.inMethod)
    decreases w.room, 0, 0
  {
    if w.room > 0 {
      AllAllowed(c, ss, store, w.(room := w.room - 1));
    }
  }

  lemma {:induction false} LoopAllowed<S(!new)>(c: Context<S>, test: nat, body: seq<Stmt>, store: S, w: Where, i: nat)
    ensures var r := Loop(c, test, body, store, w, i);
            r.Some? ==> r.value.event == NoEvent || (r.value.event == ReturnEvent && w.inMethod)
    decreases w.room, 0, 1 + Left(c, i)
  {
    var t := c.world.test(test, store);
    if t.Some? && t.value.0 && i < c.maxIterations {
      BodyAllowed(c, body, t.value.1, w.(level := w.level + 1));
      var r := Body(c, body, t.value.1, w.(level := w.level + 1));
      if r.Some? {
        LoopAllowed(c, test, body, r.value.store, w, i + 1);
      }
    }
  }

  /** A return or break skips exactly the statements after it in its own list. */
  lemma {:induction false} ExecSplits<S(!new)>(c: Context<S>, a: seq<Stmt>, b: seq<Stmt>, store: S, w: Where)
    ensures ExecAll(c, a + b, store, w) ==
            match ExecAll(c, a, store, w.(last := w.last && b == []))
            case None => None
            case Some(end) => if end.event == NoEvent then ExecAll(c, b, end.store, w) else Some(end)
    decreases |a|
  {
    if a == [] {
      assert a + b == b;
    } else {
      assert (a + b)[0] == a[0] && (a + b)[1..] == a[1..] + b;
      var u := w.(last := w.last && b == []);
      assert First(w, |a + b|) == First(u, |a|);
      var r := Exec(c, a[0], store, First(u, |a|));
      if r.Some? && r.value.event == NoEvent {
        ExecSplits(c, a[1..], b, r.value.store, w);
      }
    }
  }

  // -------------------------------------------------- limits and levels

  /** The limits of d are no tighter. */
  ghost predicate Wider<S(!new)>(c: Context<S>, d: Context<S>) {
    d.world == c.world && d.methods == c.methods && d.ending == c.ending && c.maxIterations <= d.maxIterations &&
    c.maxLevel <= d.maxLevel
  }

  /** v leaves as much room and as many loops to go. */
  ghost predicate Easier(w: Where, v: Where) {
    v.inMethod == w.inMethod && v.last == w.last && w.room <= v.room && v.level <= w.level
  }

  /** No Break or Continue outside every loop of the statement. */
  predicate NoLoose(s: Stmt) {
    match s
    case Break => false
    case Continue => false
    case If(_, body) => NoLooseAll(body)
    case IfElse(_, body, other) => NoLooseAll(body) && NoLooseAll(other)
    case _ => true
  }

  predicate NoLooseAll(ss: seq<Stmt>) {
    ss == [] || (NoLoose(ss[0]) && NoLooseAll(ss[1..]))
  }

  ghost predicate NoLooseMethods<S(!new)>(c: Context<S>) {
    forall m :: m in c.methods ==> NoLooseAll(c.methods[m])
  }

  /** Break and Continue mean the same at both places, or there are none that mean anything. */
  ghost predicate LevelsAgree<S(!new)>(c: Context<S>, w: Where, v: Where, loose: bool) {
    (w.level > 0 <==> v.level > 0) || (!loose && NoLooseMethods(c))
  }

  /**
   Raising the iteration, loop and recursion limits keeps every result but an error, and so
   does a lower loop level, unless a loose Break or Continue is at stake.
   */
  lemma {:induction false} ResultKept<S(!new)>(c: Context<S>, d: Context<S>, s: Stmt, store: S, w: Where, v: Where)
    requires Wider(c, d) && Easier(w, v) && LevelsAgree(c, w, v, !NoLoose(s)) && Exec(c, s, store, w).Some?
    ensures Exec(d, s, store, v) == Exec(c, s, store, w)
    decreases w.room, 1, 0
  {
    match s
    case Call(target) =>
      var last := target in c.ending;
      BodyKept(c, d, c.methods[target], store, w.(inMethod := true, last := last), v.(inMethod := true, last := last));
    case If(test, body) =>
      var t := c.world.test(test, store).value;
      if t.0 {
        BodyKept(c, d, body, t.1, w, v);
      }
    case IfElse(test, body, other) =>
      var t := c.world.test(test, store).value;
      if t.0 {
        BodyKept(c, d, body, t.1, w.(last := false), v.(last := false));
      } else {
        BodyKept(c, d, other, t.1, w, v);
      }
    case While(test, body) => LoopKept(c, d, test, body, store, w, v, 0);
    case _ =>
  }

  lemma {:induction false} AllKept<S(!new)>(c: Context<S>, d: Context<S>, ss: seq<Stmt>, store: S, w: Where, v: Where)
    requires Wider(c, d) && Easier(w, v) && LevelsAgree(c, w, v, !NoLooseAll(ss)) && ExecAll(c, ss, store, w).Some?
    ensures ExecAll(d, ss, store, v) == ExecAll(c, ss, store, w)
    decreases w.room, 2, |ss|
  {
    if ss != [] {
      ResultKept(c, d, ss[0], store, First(w, |ss|), First(v, |ss|));
      var end := Exec(c, ss[0], store, First(w, |ss|)).value;
      if end.event == NoEvent {
        AllKept(c, d, ss[1..], end.store, w, v);
      }
    }
  }

  lemma {:induction false} BodyKept<S(!new)>(c: Context<S>, d: Context<S>, ss: seq<Stmt>, store: S, w: Where, v: Where)
    requires Wider(c, d) && Easier(w, v) && LevelsAgree(c, w, v, !NoLooseAll(ss)) && Body(c, ss, store, w).Some?
    ensures Body(d, ss, store, v) == Body(c, ss, store, w)
    decreases w.room, 0, 0
  {
    AllKept(c, d, ss, store, w.(room := w.room - 1), v.(room := v.room - 1));
  }

  lemma {:induction false} LoopKept<S(!new)>(c: Context<S>, d: Context<S>, test: nat, body: seq<Stmt>, store: S,
                                             w: Where, v: Where,
                                             i: nat)
    requires Wider(c, d) && Easier(w, v) && Loop(c, test, body, store, w, i).Some?
    ensures Loop(d, test, body, store, v, i) == Loop(c, test, body, store, w, i)
    decreases w.room, 0, 1 + Left(c, i)
  {
    var t := c.world.test(test, store).value;
    if t.0 {
      BodyKept(c, d, body, t.1, w.(level := w.level + 1), v.(level := v.level + 1));
      var end := Body(c, body, t.1, w.(level := w.level + 1)).value;
      if end.event != ReturnEvent && end.event != BreakEvent {
        LoopKept(c, d, test, body, end.store, w, v, i + 1);
      }
    }
  }

  /** Raising the limits alone. */
  lemma LimitsOnlyFail<S(!new)>(c: Context<S>, d: Context<S>, s: Stmt, store: S, w: Where, more: nat)
    requires Wider(c, d) && w.room <= more && Exec(c, s, store, w).Some?
    ensures Exec(d, s, store, w.(room := more)) == Exec(c, s, store, w)
  {
    ResultKept(c, d, s, store, w, w.(room := more));
  }

  // ------------------------------------------------- loose Break, Continue

  /**
   Where no method has a loose Break or Continue, a call that succeeds gives the same
   result at every lower loop level of its caller, outside loops included.
   */
  lemma CallIgnoresLevel<S(!new)>(c: Context<S>, target: nat, store: S, w: Where, level: nat)
    requires NoLooseMethods(c) && level <= w.level && Exec(c, Call(target), store, w).Some?
    ensures Exec(c, Call(target), store, w.(level := level)) == Exec(c, Call(target), store, w)
  {
    ResultKept(c, c, Call(target), store, w, w.(level := level));
  }

  /** The result of a call whose body ends with that outcome. */
  function Returned<S>(r: Option<End<S>>): Option<End<S>> {
    match r
    case None => None
    case Some(end) => Some(End(NoEvent, end.store))
  }

  /**
   A Break or Continue that a called method reaches outside any loop of its own depends on
   the caller: called from a loop it ends the method, called from outside one it is ignored.
   */
  lemma LooseInCallee<S(!new)>(c: Context<S>, target: nat, a: seq<Stmt>, x: Stmt, b: seq<Stmt>, store: S, mid: S,
                               w: Where)
    requires target in c.methods && c.methods[target] == a + [x] + b && (x == Break || x == Continue) && w.room > 0
    requires var inner := Where(w.level, true, w.room - 1, false);
             ExecAll(c, a, store, inner) == Some(End(NoEvent, mid))
    ensures w.level > 0 ==> Exec(c, Call(target), store, w) == Some(End(NoEvent, mid))
    ensures w.level == 0 ==>
              Exec(c, Call(target), store, w) ==
                Returned(ExecAll(c, b, mid, Where(0, true, w.room - 1, target in c.ending)))
  {
    var u := Where(w.level, true, w.room - 1, target in c.ending);
    LooseInList(c, a, x, b, store, mid, u);
    assert c.methods[target] != [];
    assert Body(c, c.methods[target], store, u.(room := w.room)) == ExecAll(c, a + [x] + b, store, u);
  }

  lemma LooseInList<S(!new)>(c: Context<S>, a: seq<Stmt>, x: Stmt, b: seq<Stmt>, store: S, mid: S, u: Where)
    requires x == Break || x == Continue
    requires ExecAll(c, a, store, u.(last := false)) == Some(End(NoEvent, mid))
    ensures u.level > 0 ==>
              ExecAll(c, a + [x] + b, store, u) == Some(End(if x == Break then BreakEvent else ContinueEvent, mid))
    ensures u.level == 0 ==> ExecAll(c, a + [x] + b, store, u) == ExecAll(c, b, mid, u)
  {
    assert a + [x] + b == a + ([x] + b);
    ExecSplits(c, a, [x] + b, store, u);
    assert ([x] + b)[0] == x && ([x] + b)[1..] == b;
    var event := if u.level == 0 then NoEvent else if x == Break then BreakEvent else ContinueEvent;
    assert Exec(c, x, mid, First(u, |[x] + b|)) == Some(End(event, mid));
  }
}
