/**
 What the loop level of its caller means to a method: nothing, unless the method reaches a
 Break or Continue outside every loop of its own, or calls one that does.
 */
module ControlLevels {
  import opened Control
  import opened ControlTheorems

  // ----------------------------------------------- the method's own frame

  // The store with which the execution reaches a Break or Continue outside every loop,
  // however deep inside If, but not in a called method.

  function Reach<S(!new)>(c: Context<S>, s: Stmt, store: S, w: Where): Option<S>
    decreases w.room, 1, 0
  {
    match s
    case Break => Some(store)
    case Continue => Some(store)
    case If(test, body) =>
      (match c.world.test(test, store)
       case Some((true, t)) => ReachBody(c, body, t, w)
       case _ => None)
    case IfElse(test, body, other) =>
      (match c.world.test(test, store)
       case None => None
       case Some((true, t)) => ReachBody(c, body, t, w.(last := false))
       case Some((false, t)) => ReachBody(c, other, t, w))
    case _ => None
  }

  function ReachAll<S(!new)>(c: Context<S>, ss: seq<Stmt>, store: S, w: Where): Option<S>
    decreases w.room, 2, |ss|
  {
    if ss == [] then None
    else
      match Reach(c, ss[0], store, First(w, |ss|))
      case Some(t) => Some(t)
      case None =>
        match Exec(c, ss[0], store, First(w, |ss|))
        case None => None
        case Some(end) => if end.event == NoEvent then ReachAll(c, ss[1..], end.store, w) else None
  }

  function ReachBody<S(!new)>(c: Context<S>, ss: seq<Stmt>, store: S, w: Where): Option<S>
    decreases w.room, 0, 0
  {
    if w.room == 0 then None else ReachAll(c, ss, store, w.(room := w.room - 1))
  }

  /** Inside a loop, what is reached is the end of the list and its store; otherwise no Break or Continue comes out. */
  ghost predicate EndsAt<S(!new)>(r: Option<End<S>>, reached: Option<S>) {
    match reached
    case Some(t) => r.Some? && r.value.store == t && (r.value.event == BreakEvent || r.value.event == ContinueEvent)
    case None => r.Some? ==> r.value.event == NoEvent || r.value.event == ReturnEvent
  }

  lemma {:induction false} ReachExact<S(!new)>(c: Context<S>, s: Stmt, store: S, w: Where)
    requires w.level > 0
    ensures EndsAt(Exec(c, s, store, w), Reach(c, s, store, w))
    decreases w.room, 1, 0
  {
    EventsAllowed(c, s, store, w);
    match s
    case If(test, body) =>
      var t := c.world.test(test, store);
      if t.Some? && t.value.0 {
        ReachBodyExact(c, body, t.value.1, w);
      }
    case IfElse(test, body, other) =>
      var t := c.world.test(test, store);
      if t.Some? {
        ReachBodyExact(c, body, t.value.1, w.(last := false));
        ReachBodyExact(c, other, t.value.1, w);
      }
    case _ =>
  }

  lemma {:induction false} ReachAllExact<S(!new)>(c: Context<S>, ss: seq<Stmt>, store: S, w: Where)
    requires w.level > 0
    ensures EndsAt(ExecAll(c, ss, store, w), ReachAll(c, ss, store, w))
    decreases w.room, 2, |ss|
  {
    if ss != [] {
      ReachExact(c, ss[0], store, First(w, |ss|));
      var r := Exec(c, ss[0], store, First(w, |ss|));
      if r.Some? && r.value.event == NoEvent {
        ReachAllExact(c, ss[1..], r.value.store, w);
      }
    }
  }

  lemma {:induction false} ReachBodyExact<S(!new)>(c: Context<S>, ss: seq<Stmt>, store: S, w: Where)
    requires w.level > 0
    ensures EndsAt(Body(c, ss, store, w), ReachBody(c, ss, store, w))
    decreases w.room, 0, 0
  {
    if w.room > 0 && !(ss == [] && w.last) {
      ReachAllExact(c, ss, store, w.(room := w.room - 1));
    }
  }

  // ------------------------------------------- called methods included

  // An execution outside loops meets a Break or Continue outside every loop, in its own
  // frame or in that of a method called outside loops.

  ghost predicate Meets<S(!new)>(c: Context<S>, s: Stmt, store: S, w: Where)
    decreases w.room, 1, 0
  {
    match s
    case Break => true
    case Continue => true
    case Call(target) =>
      target in c.methods && MeetsBody(c, c.methods[target], store, w.(inMethod := true, last := target in c.ending))
    case If(test, body) =>
      (match c.world.test(test, store)
       case Some((true, t)) => MeetsBody(c, body, t, w)
       case _ => false)
    case IfElse(test, body, other) =>
      (match c.world.test(test, store)
       case None => false
       case Some((true, t)) => MeetsBody(c, body, t, w.(last := false))
       case Some((false, t)) => MeetsBody(c, other, t, w))
    case _ => false
  }

  ghost predicate MeetsAll<S(!new)>(c: Context<S>, ss: seq<Stmt>, store: S, w: Where)
    decreases w.room, 2, |ss|
  {
    ss != [] &&
    (Meets(c, ss[0], store, First(w, |ss|)) ||
     match Exec(c, ss[0], store, First(w, |ss|))
     case None => false
     case Some(end) => end.event == NoEvent && MeetsAll(c, ss[1..], end.store, w))
  }

  ghost predicate MeetsBody<S(!new)>(c: Context<S>, ss: seq<Stmt>, store: S, w: Where)
    decreases w.room, 0, 0
  {
    w.room > 0 && MeetsAll(c, ss, store, w.(room := w.room - 1))
  }

  /** The same place with d more loops around it, and as many more allowed. */
  function Deeper(w: Where, d: nat): Where {
    w.(level := w.level + d)
  }

  function Roomier<S>(c: Context<S>, d: nat): Context<S> {
    c.(maxLevel := c.maxLevel + d)
  }

  /**
   More loops around change nothing inside a loop, and outside every loop nothing unless a
   Break or Continue is met there.
   */
  lemma {:induction false} LevelShifts<S(!new)>(c: Context<S>, s: Stmt, store: S, w: Where, d: nat)
    requires w.level > 0 || !Meets(c, s, store, w)
    ensures Exec(Roomier(c, d), s, store, Deeper(w, d)) == Exec(c, s, store, w)
    decreases w.room, 1, 0
  {
    match s
    case Call(target) =>
      if target in c.methods {
        BodyShifts(c, c.methods[target], store, w.(inMethod := true, last := target in c.ending), d);
      }
    case If(test, body) =>
      var t := c.world.test(test, store);
      if t.Some? && t.value.0 {
        BodyShifts(c, body, t.value.1, w, d);
      }
    case IfElse(test, body, other) =>
      var t := c.world.test(test, store);
      if t.Some? {
        if t.value.0 {
          BodyShifts(c, body, t.value.1, w.(last := false), d);
        } else {
          BodyShifts(c, other, t.value.1, w, d);
        }
      }
    case While(test, body) => LoopShifts(c, test, body, store, w, d, 0);
    case _ =>
  }

  lemma {:induction false} AllShifts<S(!new)>(c: Context<S>, ss: seq<Stmt>, store: S, w: Where, d: nat)
    requires w.level > 0 || !MeetsAll(c, ss, store, w)
    ensures ExecAll(Roomier(c, d), ss, store, Deeper(w, d)) == ExecAll(c, ss, store, w)
    decreases w.room, 2, |ss|
  {
    if ss != [] {
      LevelShifts(c, ss[0], store, First(w, |ss|), d);
      assert First(Deeper(w, d), |ss|) == Deeper(First(w, |ss|), d);
      var r := Exec(c, ss[0], store, First(w, |ss|));
      if r.Some? && r.value.event == NoEvent {
        AllShifts(c, ss[1..], r.value.store, w, d);
      }
    }
  }

  lemma {:induction false} BodyShifts<S(!new)>(c: Context<S>, ss: seq<Stmt>, store: S, w: Where, d: nat)
    requires w.level > 0 || !MeetsBody(c, ss, store, w)
    ensures Body(Roomier(c, d), ss, store, Deeper(w, d)) == Body(c, ss, store, w)
    decreases w.room, 0, 0
  {
    if w.room > 0 {
      AllShifts(c, ss, store, w.(room := w.room - 1), d);
    }
  }

  lemma {:induction false} LoopShifts<S(!new)>(c: Context<S>, test: nat, body: seq<Stmt>, store: S, w: Where, d: nat,
                                               i: nat)
    ensures Loop(Roomier(c, d), test, body, store, Deeper(w, d), i) == Loop(c, test, body, store, w, i)
    decreases w.room, 0, 1 + Left(c, i)
  {
    var t := c.world.test(test, store);
    if t.Some? && t.value.0 && i < c.maxIterations {
      var u := w.(level := w.level + 1);
      BodyShifts(c, body, t.value.1, u, d);
      assert Deeper(u, d) == Deeper(w, d).(level := w.level + d + 1);
      var r := Body(c, body, t.value.1, u);
      if r.Some? {
        LoopShifts(c, test, body, r.value.store, w, d, i + 1);
      }
    }
  }

  // -------------------------------------------------------------- the call

  /**
   A call from inside loops ends at the Break or Continue its method reaches outside its
   own loops; if it reaches none and calls no method that does, it gives what it gives
   outside loops, error or not.
   */
  lemma CallFromLoops<S(!new)>(c: Context<S>, target: nat, store: S, w: Where, d: nat)
    requires w.level == 0 && d > 0 && target in c.methods
    ensures var inner := Deeper(w, d).(inMethod := true, last := target in c.ending);
            match ReachBody(Roomier(c, d), c.methods[target], store, inner)
            case Some(t) => Exec(Roomier(c, d), Call(target), store, Deeper(w, d)) == Some(End(NoEvent, t))
            case None =>
              !Meets(c, Call(target), store, w) ==>
                Exec(Roomier(c, d), Call(target), store, Deeper(w, d)) == Exec(c, Call(target), store, w)
  {
    var inner := Deeper(w, d).(inMethod := true, last := target in c.ending);
    ReachBodyExact(Roomier(c, d), c.methods[target], store, inner);
    if !Meets(c, Call(target), store, w) {
      LevelShifts(c, Call(target), store, w, d);
    }
  }

  /** So where no method has a Break or Continue outside its loops, the level never matters. */
  lemma {:induction false} NoLooseMeetsNothing<S(!new)>(c: Context<S>, s: Stmt, store: S, w: Where)
    requires NoLooseMethods(c) && NoLoose(s)
    ensures !Meets(c, s, store, w)
    decreases w.room, 1, 0
  {
    match s
    case Call(target) =>
      if target in c.methods {
        NoLooseBody(c, c.methods[target], store, w.(inMethod := true, last := target in c.ending));
      }
    case If(test, body) =>
      var t := c.world.test(test, store);
      if t.Some? {
        NoLooseBody(c, body, t.value.1, w);
      }
    case IfElse(test, body, other) =>
      var t := c.world.test(test, store);
      if t.Some? {
        NoLooseBody(c, body, t.value.1, w.(last := false));
        NoLooseBody(c, other, t.value.1, w);
      }
    case _ =>
  }

  lemma {:induction false} NoLooseList<S(!new)>(c: Context<S>, ss: seq<Stmt>, store: S, w: Where)
    requires NoLooseMethods(c) && NoLooseAll(ss)
    ensures !MeetsAll(c, ss, store, w)
    decreases w.room, 2, |ss|
  {
    if ss != [] {
      NoLooseMeetsNothing(c, ss[0], store, First(w, |ss|));
      var r := Exec(c, ss[0], store, First(w, |ss|));
      if r.Some? && r.value.event == NoEvent {
        NoLooseList(c, ss[1..], r.value.store, w);
      }
    }
  }

  lemma {:induction false} NoLooseBody<S(!new)>(c: Context<S>, ss: seq<Stmt>, store: S, w: Where)
    requires NoLooseMethods(c) && NoLooseAll(ss)
    ensures !MeetsBody(c, ss, store, w)
    decreases w.room, 0, 0
  {
    if w.room > 0 {
      NoLooseList(c, ss, store, w.(room := w.room - 1));
    }
  }

  /** A call gives the same result, error or not, with any number of loops around it, if as many more are allowed. */
  lemma CallSameAtEveryLevel<S(!new)>(c: Context<S>, target: nat, store: S, w: Where, d: nat)
    requires NoLooseMethods(c)
    ensures Exec(Roomier(c, d), Call(target), store, Deeper(w, d)) == Exec(c, Call(target), store, w)
  {
    NoLooseMeetsNothing(c, Call(target), store, w);
    LevelShifts(c, Call(target), store, w, d);
  }
}
