/**
 What the position at the very end of the data changes.  The evaluator refuses a nested
 list that starts where its data ends (src/aml_eval.c:1552), so an empty body there is an
 error.  The plain meaning of a program is the one in which no code ends the data.
 */
module ControlEndings {
  import opened Control

  /** The same program followed by more data. */
  function Plainly<S(!new)>(c: Context<S>): Context<S> {
    c.(ending := {})
  }

  function Inside(w: Where): Where {
    w.(last := false)
  }

  // The plain execution enters an empty list at the end of the data.

  ghost predicate Enters<S(!new)>(c: Context<S>, s: Stmt, store: S, w: Where)
    decreases w.room, 1, 0
  {
    match s
    case Call(target) =>
      target in c.methods && EntersBody(c, c.methods[target], store, w.(inMethod := true, last := target in c.ending))
    case If(test, body) =>
      (match c.world.test(test, store)
       case Some((true, t)) => EntersBody(c, body, t, w)
       case _ => false)
    case IfElse(test, body, other) =>
      (match c.world.test(test, store)
       case None => false
       case Some((true, t)) => EntersBody(c, body, t, Inside(w))
       case Some((false, t)) => EntersBody(c, other, t, w))
    case While(test, body) => EntersLoop(c, test, body, store, w, 0)
    case _ => false
  }

  ghost predicate EntersAll<S(!new)>(c: Context<S>, ss: seq<Stmt>, store: S, w: Where)
    decreases w.room, 2, |ss|
  {
    ss != [] &&
    (Enters(c, ss[0], store, First(w, |ss|)) ||
     match Exec(Plainly(c), ss[0], store, Inside(w))
     case None => false
     case Some(end) => end.event == NoEvent && EntersAll(c, ss[1..], end.store, w))
  }

  ghost predicate EntersBody<S(!new)>(c: Context<S>, ss: seq<Stmt>, store: S, w: Where)
    decreases w.room, 0, 0
  {
    w.room > 0 && ((ss == [] && w.last) || EntersAll(c, ss, store, w.(room := w.room - 1)))
  }

  ghost predicate EntersLoop<S(!new)>(c: Context<S>, test: nat, body: seq<Stmt>, store: S, w: Where, i: nat)
    decreases w.room, 0, 1 + Left(c, i)
  {
    match c.world.test(test, store)
    case Some((true, t)) =>
      i < c.maxIterations && w.level < c.maxLevel &&
      (EntersBody(c, body, t, w.(level := w.level + 1)) ||
       match Body(Plainly(c), body, t, Inside(w.(level := w.level + 1)))
       case None => false
       case Some(end) =>
         end.event != ReturnEvent && end.event != BreakEvent && EntersLoop(c, test, body, end.store, w, i + 1))
    case _ => false
  }

  /** An execution fails if it enters such a list, and is otherwise the plain one. */
  lemma {:induction false} EndingsExact<S(!new)>(c: Context<S>, s: Stmt, store: S, w: Where)
    ensures Exec(c, s, store, w) == if Enters(c, s, store, w) then None else Exec(Plainly(c), s, store, Inside(w))
    decreases w.room, 1, 0
  {
    match s
    case Call(target) =>
      if target in c.methods {
        BodyExact(c, c.methods[target], store, w.(inMethod := true, last := target in c.ending));
      }
    case If(test, body) =>
      var t := c.world.test(test, store);
      if t.Some? && t.value.0 {
        BodyExact(c, body, t.value.1, w);
      }
    case IfElse(test, body, other) =>
      var t := c.world.test(test, store);
      if t.Some? {
        BodyExact(c, body, t.value.1, Inside(w));
        BodyExact(c, other, t.value.1, w);
      }
    case While(test, body) => LoopExact(c, test, body, store, w, 0);
    case _ =>
  }

  lemma {:induction false} AllExact<S(!new)>(c: Context<S>, ss: seq<Stmt>, store: S, w: Where)
    ensures ExecAll(c, ss, store, w) == if EntersAll(c, ss, store, w) then None
            else ExecAll(Plainly(c), ss, store, Inside(w))
    decreases w.room, 2, |ss|
  {
    if ss != [] {
      EndingsExact(c, ss[0], store, First(w, |ss|));
      assert First(Inside(w), |ss|) == Inside(w) == Inside(First(w, |ss|));
      var r := Exec(Plainly(c), ss[0], store, Inside(w));
      if r.Some? && r.value.event == NoEvent {
        AllExact(c, ss[1..], r.value.store, w);
      }
    }
  }

  lemma {:induction false} BodyExact<S(!new)>(c: Context<S>, ss: seq<Stmt>, store: S, w: Where)
    ensures Body(c, ss, store, w) == if EntersBody(c, ss, store, w) then None
            else Body(Plainly(c), ss, store, Inside(w))
    decreases w.room, 0, 0
  {
    if w.room > 0 {
      AllExact(c, ss, store, w.(room := w.room - 1));
    }
  }

  lemma {:induction false} LoopExact<S(!new)>(c: Context<S>, test: nat, body: seq<Stmt>, store: S, w: Where, i: nat)
    ensures Loop(c, test, body, store, w, i) ==
            if EntersLoop(c, test, body, store, w, i) then None else Loop(Plainly(c), test, body, store, Inside(w), i)
    decreases w.room, 0, 1 + Left(c, i)
  {
    var t := c.world.test(test, store);
    if t.Some? && t.value.0 && i < c.maxIterations {
      var u := w.(level := w.level + 1);
      BodyExact(c, body, t.value.1, u);
      var r := Body(Plainly(c), body, t.value.1, Inside(u));
      if r.Some? {
        LoopExact(c, test, body, r.value.store, w, i + 1);
      }
    }
  }

  /** The position of the data changes a result exactly when it turns a success into an error. */
  lemma {:induction false} EndingsMatterIff<S(!new)>(c: Context<S>, s: Stmt, store: S, w: Where)
    ensures Exec(c, s, store, w) != Exec(Plainly(c), s, store, Inside(w)) <==>
            Enters(c, s, store, w) && Exec(Plainly(c), s, store, Inside(w)).Some?
  {
    EndingsExact(c, s, store, w);
  }

  /** Calling an empty method works, and fails if the method is the last thing in its data. */
  lemma {:induction false} EmptyMethodFails<S(!new)>(c: Context<S>, target: nat, store: S, w: Where)
    requires target in c.methods && c.methods[target] == [] && w.room > 0
    ensures Exec(Plainly(c), Call(target), store, w) == Some(End(NoEvent, store))
    ensures target in c.ending <==> Exec(c, Call(target), store, w) == None
    ensures target in c.ending <==> Enters(c, Call(target), store, w)
  {
    var u := w.(inMethod := true, last := false);
    assert ExecAll(Plainly(c), [], store, u.(room := w.room - 1)) == Some(End(NoEvent, store));
    assert Body(Plainly(c), c.methods[target], store, u) == Some(End(NoEvent, store));
    var v := w.(inMethod := true, last := target in c.ending);
    assert EntersBody(c, c.methods[target], store, v) <==> target in c.ending;
    EndingsExact(c, Call(target), store, w);
    assert Exec(Plainly(c), Call(target), store, Inside(w)) == Some(End(NoEvent, store));
  }

  /**
   So does a method whose last statement waits in an empty loop, as soon as its test is
   true once; a loop whose test is false at the start does no harm.
   */
  lemma {:induction false} EmptyLoopFails<S(!new)>(c: Context<S>, test: nat, store: S, next: S, last: S, w: Where)
    requires w.last && w.room > 0 && w.level < c.maxLevel && c.maxIterations > 0
    requires c.world.test(test, store) == Some((true, next)) && c.world.test(test, next) == Some((false, last))
    ensures Exec(c, While(test, []), store, w) == None
    ensures Exec(c, While(test, []), store, Inside(w)) == Some(End(NoEvent, last))
    ensures Exec(c, While(test, []), next, w) == Some(End(NoEvent, last))
  {
    var u := Inside(w).(level := w.level + 1);
    assert ExecAll(c, [], next, u.(room := w.room - 1)) == Some(End(NoEvent, next));
    assert Body(c, [], next, u) == Some(End(NoEvent, next));
    assert Iterate(c, test, [], false, last, Inside(w), 1) == Some(End(NoEvent, last));
    assert Loop(c, test, [], next, Inside(w), 1) == Some(End(NoEvent, last));
    assert Iterate(c, test, [], true, next, Inside(w), 0) == Some(End(NoEvent, last));
    assert Loop(c, test, [], store, Inside(w), 0) == Some(End(NoEvent, last));
    assert Body(c, [], next, w.(level := w.level + 1)) == None;
    assert Iterate(c, test, [], true, next, w, 0) == None;
    assert Loop(c, test, [], store, w, 0) == None;
    assert Iterate(c, test, [], false, last, w, 0) == Some(End(NoEvent, last));
    assert Loop(c, test, [], next, w, 0) == Some(End(NoEvent, last));
  }
}
