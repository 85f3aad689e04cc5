/**
 What the structured statements mean, said of the world they run in: which terms are
 evaluated, in which order, how often, and what comes of their errors.
 */
module ControlMeanings {
  import opened Control

  /** Every statement is an ordinary term. */
  predicate OnlyTerms(ss: seq<Stmt>) {
    forall i :: 0 <= i < |ss| ==> ss[i].Do?
  }

  /** The terms one after the other; an error ends it. */
  function InTurn<S(!new)>(world: World<S>, ss: seq<Stmt>, store: S): Option<S>
    requires OnlyTerms(ss)
  {
    if ss == [] then Some(store)
    else
      match world.term(ss[0].term, store)
      case None => None
      case Some(t) => InTurn(world, ss[1..], t)
  }

  /** Nothing more happens, and there is no event. */
  function Quietly<S>(r: Option<S>): Option<End<S>> {
    match r
    case None => None
    case Some(t) => Some(End(NoEvent, t))
  }

  /** A list of plain terms evaluates each of them on what the one before left, and fails with the first that does. */
  lemma {:induction false} TermsInTurn<S(!new)>(c: Context<S>, ss: seq<Stmt>, store: S, w: Where)
    requires OnlyTerms(ss)
    ensures ExecAll(c, ss, store, w) == Quietly(InTurn(c.world, ss, store))
    decreases |ss|
  {
    if ss != [] {
      var t := c.world.term(ss[0].term, store);
      assert Exec(c, ss[0], store, First(w, |ss|)) == Quietly(t);
      if t.Some? {
        TermsInTurn(c, ss[1..], t.value, w);
      }
    }
  }

  /** Terms in front of a list. */
  lemma {:induction false} TermsThen<S(!new)>(c: Context<S>, a: seq<Stmt>, b: seq<Stmt>, store: S, w: Where)
    requires OnlyTerms(a) && b != []
    ensures ExecAll(c, a + b, store, w) ==
            match InTurn(c.world, a, store)
            case None => None
            case Some(t) => ExecAll(c, b, t, w)
    decreases |a|
  {
    if a == [] {
      assert a + b == b;
    } else {
      assert (a + b)[0] == a[0] && (a + b)[1..] == a[1..] + b;
      var t := c.world.term(a[0].term, store);
      assert Exec(c, a[0], store, First(w, |a + b|)) == Quietly(t);
      if t.Some? {
        TermsThen(c, a[1..], b, t.value, w);
      }
    }
  }

  /** Return evaluates its argument, fails with it, and skips what follows; outside a method it is an error. */
  lemma ReturnAfterTerms<S(!new)>(c: Context<S>, a: seq<Stmt>, arg: nat, b: seq<Stmt>, store: S, w: Where)
    requires OnlyTerms(a)
    ensures ExecAll(c, a + ([Return(arg)] + b), store, w) ==
            match InTurn(c.world, a, store)
            case None => None
            case Some(t) =>
              if !w.inMethod || c.world.arg(arg, t) == None then None
              else Some(End(ReturnEvent, c.world.arg(arg, t).value))
  {
    TermsThen(c, a, [Return(arg)] + b, store, w);
    var rest := [Return(arg)] + b;
    assert rest[0] == Return(arg) && rest[1..] == b;
    var t := InTurn(c.world, a, store);
    if t.Some? {
      var r := Exec(c, rest[0], t.value, First(w, |rest|));
      assert r == if w.inMethod then Plain(c.world.arg(arg, t.value), ReturnEvent) else None;
    }
  }

  // ------------------------------------------------------------------- If

  /** If evaluates its test; on false it does nothing more, on true the terms of its body; it fails with its test. */
  lemma IfTerms<S(!new)>(c: Context<S>, test: nat, body: seq<Stmt>, store: S, w: Where)
    requires OnlyTerms(body) && w.room > 0 && (body != [] || !w.last)
    ensures Exec(c, If(test, body), store, w) ==
            match c.world.test(test, store)
            case None => None
            case Some(t) => if t.0 then Quietly(InTurn(c.world, body, t.1)) else Some(End(NoEvent, t.1))
  {
    var t := c.world.test(test, store);
    if t.Some? && t.value.0 {
      TermsInTurn(c, body, t.value.1, w.(room := w.room - 1));
      assert Body(c, body, t.value.1, w) == Quietly(InTurn(c.world, body, t.value.1));
    }
  }

  /** With Else it is the one or the other. */
  lemma IfElseTerms<S(!new)>(c: Context<S>, test: nat, body: seq<Stmt>, other: seq<Stmt>, store: S, w: Where)
    requires OnlyTerms(body) && OnlyTerms(other) && w.room > 0 && (other != [] || !w.last)
    ensures Exec(c, IfElse(test, body, other), store, w) ==
            match c.world.test(test, store)
            case None => None
            case Some(t) => Quietly(InTurn(c.world, if t.0 then body else other, t.1))
  {
    var t := c.world.test(test, store);
    if t.Some? {
      TermsInTurn(c, body, t.value.1, w.(last := false, room := w.room - 1));
      TermsInTurn(c, other, t.value.1, w.(room := w.room - 1));
      assert Body(c, body, t.value.1, w.(last := false)) == Quietly(InTurn(c.world, body, t.value.1));
      assert Body(c, other, t.value.1, w) == Quietly(InTurn(c.world, other, t.value.1));
    }
  }

  // ---------------------------------------------------------------- While

  /** The test is true n times, each time followed by the terms, and then false, which leaves final. */
  ghost predicate Turns<S(!new)>(world: World<S>, test: nat, terms: seq<Stmt>, store: S, n: nat, final: S)
    requires OnlyTerms(terms)
    decreases n
  {
    match world.test(test, store)
    case None => false
    case Some(t) =>
      if n == 0 then !t.0 && t.1 == final
      else
        t.0 &&
        match InTurn(world, terms, t.1)
        case None => false
        case Some(u) => Turns(world, test, terms, u, n - 1, final)
  }

  /** One turn of a loop that ends without Break and Return. */
  ghost predicate BodyIs<S(!new)>(c: Context<S>, body: seq<Stmt>, terms: seq<Stmt>, event: Event, w: Where)
    requires OnlyTerms(terms)
  {
    forall store :: Body(c, body, store, w) ==
      match InTurn(c.world, terms, store)
      case None => None
      case Some(t) => Some(End(event, t))
  }

  /** A loop whose body comes to those terms, before its test is evaluated for the i-th time. */
  lemma {:induction false} LoopTurns<S(!new)>(c: Context<S>, test: nat, body: seq<Stmt>, terms: seq<Stmt>, event: Event,
                                              store: S, w: Where, i: nat, n: nat, final: S)
    requires OnlyTerms(terms) && Turns(c.world, test, terms, store, n, final) && i <= c.maxIterations
    requires (event == NoEvent || event == ContinueEvent) && w.level < c.maxLevel
    requires BodyIs(c, body, terms, event, w.(level := w.level + 1))
    ensures Loop(c, test, body, store, w, i) ==
            if i + n <= c.maxIterations then Some(End(NoEvent, final)) else None
    decreases n
  {
    var t := c.world.test(test, store).value;
    if n > 0 && i < c.maxIterations {
      var u := InTurn(c.world, terms, t.1).value;
      assert Body(c, body, t.1, w.(level := w.level + 1)) == Some(End(event, u));
      LoopTurns(c, test, body, terms, event, u, w, i + 1, n - 1, final);
    }
  }

  lemma TermsBody<S(!new)>(c: Context<S>, terms: seq<Stmt>, w: Where)
    requires OnlyTerms(terms) && w.room > 0 && (terms != [] || !w.last)
    ensures BodyIs(c, terms, terms, NoEvent, w)
  {
    forall store ensures Body(c, terms, store, w) == Quietly(InTurn(c.world, terms, store)) {
      TermsInTurn(c, terms, store, w.(room := w.room - 1));
    }
  }

  lemma ContinueBody<S(!new)>(c: Context<S>, terms: seq<Stmt>, rest: seq<Stmt>, w: Where)
    requires OnlyTerms(terms) && w.room > 0 && w.level > 0
    ensures BodyIs(c, terms + ([Continue] + rest), terms, ContinueEvent, w)
  {
    var tail := [Continue] + rest;
    assert tail[0] == Continue;
    forall store
      ensures Body(c, terms + tail, store, w) ==
              match InTurn(c.world, terms, store)
              case None => None
              case Some(t) => Some(End(ContinueEvent, t))
    {
      var u := w.(room := w.room - 1);
      TermsThen(c, terms, tail, store, u);
      var t := InTurn(c.world, terms, store);
      if t.Some? {
        assert Exec(c, tail[0], t.value, First(u, |tail|)) == Some(End(ContinueEvent, t.value));
      }
    }
  }

  /**
   A loop over plain terms evaluates its test before each turn and its terms in each, and
   ends with what the test that is false leaves; it fails exactly if it would turn more
   often than the limit allows.
   */
  lemma WhileTerms<S(!new)>(c: Context<S>, test: nat, terms: seq<Stmt>, store: S, w: Where, n: nat, final: S)
    requires OnlyTerms(terms) && Turns(c.world, test, terms, store, n, final)
    requires w.room > 0 && w.level < c.maxLevel && (terms != [] || !w.last)
    ensures Exec(c, While(test, terms), store, w) == if n <= c.maxIterations then Some(End(NoEvent, final)) else None
  {
    TermsBody(c, terms, w.(level := w.level + 1));
    LoopTurns(c, test, terms, terms, NoEvent, store, w, 0, n, final);
  }

  /** Continue skips the rest of the turn, and the loop goes on. */
  lemma WhileContinues<S(!new)>(c: Context<S>, test: nat, terms: seq<Stmt>, rest: seq<Stmt>, store: S, w: Where, n: nat,
                                final: S)
    requires OnlyTerms(terms) && Turns(c.world, test, terms, store, n, final) && w.room > 0 && w.level < c.maxLevel
    ensures Exec(c, While(test, terms + ([Continue] + rest)), store, w) ==
            if n <= c.maxIterations then Some(End(NoEvent, final)) else None
  {
    ContinueBody(c, terms, rest, w.(level := w.level + 1));
    LoopTurns(c, test, terms + ([Continue] + rest), terms, ContinueEvent, store, w, 0, n, final);
  }

  /** Break ends the loop in its first turn: the terms before it are evaluated once, and the test once. */
  lemma WhileBreaks<S(!new)>(c: Context<S>, test: nat, terms: seq<Stmt>, rest: seq<Stmt>, store: S, w: Where)
    requires OnlyTerms(terms) && w.room > 0 && w.level < c.maxLevel && c.maxIterations > 0
    ensures Exec(c, While(test, terms + ([Break] + rest)), store, w) ==
            match c.world.test(test, store)
            case None => None
            case Some(t) => if t.0 then Quietly(InTurn(c.world, terms, t.1)) else Some(End(NoEvent, t.1))
  {
    var t, body := c.world.test(test, store), terms + ([Break] + rest);
    assert Exec(c, While(test, body), store, w) == Loop(c, test, body, store, w, 0);
    if t.Some? {
      assert Loop(c, test, body, store, w, 0) == Iterate(c, test, body, t.value.0, t.value.1, w, 0);
      if t.value.0 {
        BrokenTurn(c, test, terms, rest, t.value.1, w);
      }
    }
  }

  lemma BreakBody<S(!new)>(c: Context<S>, terms: seq<Stmt>, rest: seq<Stmt>, store: S, w: Where)
    requires OnlyTerms(terms) && w.room > 0 && w.level > 0
    ensures Body(c, terms + ([Break] + rest), store, w) ==
            match InTurn(c.world, terms, store)
            case None => None
            case Some(t) => Some(End(BreakEvent, t))
  {
    var tail, v := [Break] + rest, w.(room := w.room - 1);
    assert tail[0] == Break;
    TermsThen(c, terms, tail, store, v);
    var u := InTurn(c.world, terms, store);
    if u.Some? {
      assert Exec(c, tail[0], u.value, First(v, |tail|)) == Some(End(BreakEvent, u.value));
    }
  }

  lemma BrokenTurn<S(!new)>(c: Context<S>, test: nat, terms: seq<Stmt>, rest: seq<Stmt>, store: S, w: Where)
    requires OnlyTerms(terms) && w.room > 0 && w.level < c.maxLevel && c.maxIterations > 0
    ensures Iterate(c, test, terms + ([Break] + rest), true, store, w, 0) == Quietly(InTurn(c.world, terms, store))
  {
    BreakBody(c, terms, rest, store, w.(level := w.level + 1));
  }

  // ---------------------------------------------------------------- calls

  /** A call evaluates the terms of its method; a method that does not exist cannot be called. */
  lemma CallTerms<S(!new)>(c: Context<S>, target: nat, store: S, w: Where)
    requires w.room > 0 && (target in c.methods ==> OnlyTerms(c.methods[target]))
    requires target in c.methods && c.methods[target] == [] ==> target !in c.ending
    ensures Exec(c, Call(target), store, w) ==
            if target in c.methods then Quietly(InTurn(c.world, c.methods[target], store)) else None
  {
    if target in c.methods {
      var u := w.(inMethod := true, last := target in c.ending);
      TermsInTurn(c, c.methods[target], store, u.(room := w.room - 1));
      assert Body(c, c.methods[target], store, u) == Quietly(InTurn(c.world, c.methods[target], store));
    }
  }

  /** A call of a method that returns ends with the store its argument leaves. */
  lemma CallReturns<S(!new)>(c: Context<S>, target: nat, a: seq<Stmt>, arg: nat, b: seq<Stmt>, store: S, w: Where)
    requires w.room > 0 && OnlyTerms(a) && target in c.methods && c.methods[target] == a + ([Return(arg)] + b)
    ensures Exec(c, Call(target), store, w) ==
            match InTurn(c.world, a, store)
            case None => None
            case Some(t) => Quietly(c.world.arg(arg, t))
  {
    var u := w.(inMethod := true, last := target in c.ending);
    ReturnAfterTerms(c, a, arg, b, store, u.(room := w.room - 1));
    assert c.methods[target] != [];
    assert Body(c, c.methods[target], store, u) == ExecAll(c, c.methods[target], store, u.(room := w.room - 1));
  }

  /** Outside every loop Break and Continue do nothing. */
  lemma LooseDoesNothing<S(!new)>(c: Context<S>, a: seq<Stmt>, x: Stmt, b: seq<Stmt>, store: S, w: Where)
    requires OnlyTerms(a) && OnlyTerms(b) && (x == Break || x == Continue) && w.level == 0
    ensures ExecAll(c, a + ([x] + b), store, w) == Quietly(InTurn(c.world, a + b, store))
  {
    var tail := [x] + b;
    assert tail[0] == x && tail[1..] == b;
    TermsThen(c, a, tail, store, w);
    InTurnSplits(c.world, a, b, store);
    var t := InTurn(c.world, a, store);
    if t.Some? {
      assert Exec(c, tail[0], t.value, First(w, |tail|)) == Some(End(NoEvent, t.value));
      TermsInTurn(c, b, t.value, w);
    }
  }

  lemma {:induction false} InTurnSplits<S(!new)>(world: World<S>, a: seq<Stmt>, b: seq<Stmt>, store: S)
    requires OnlyTerms(a) && OnlyTerms(b)
    ensures InTurn(world, a + b, store) ==
            match InTurn(world, a, store)
            case None => None
            case Some(t) => InTurn(world, b, t)
    decreases |a|
  {
    if a == [] {
      assert a + b == b;
    } else {
      assert (a + b)[0] == a[0] && (a + b)[1..] == a[1..] + b;
      var t := world.term(a[0].term, store);
      if t.Some? {
        InTurnSplits(world, a[1..], b, t.value);
      }
    }
  }

  /** A loop nested more deeply than allowed fails once its test is true. */
  lemma TooManyLoops<S(!new)>(c: Context<S>, test: nat, body: seq<Stmt>, store: S, w: Where)
    requires w.level >= c.maxLevel
    ensures Exec(c, While(test, body), store, w) ==
            match c.world.test(test, store)
            case None => None
            case Some(t) => if t.0 then None else Some(End(NoEvent, t.1))
  {
    assert Exec(c, While(test, body), store, w) == Loop(c, test, body, store, w, 0);
  }

  /** The body of a nested list of plain terms. */
  lemma BodyInTurn<S(!new)>(c: Context<S>, ss: seq<Stmt>, store: S, w: Where)
    requires OnlyTerms(ss) && w.room > 0 && (ss != [] || !w.last)
    ensures Body(c, ss, store, w) == Quietly(InTurn(c.world, ss, store))
  {
    TermsInTurn(c, ss, store, w.(room := w.room - 1));
  }

  /** The cells of the statements: opcode, then package length from itself on, then the parts. */
  lemma EncodedCells(term: nat, target: nat, test: nat, arg: nat)
    ensures Encode(Do(term)) == [Term(term)] && Encode(Call(target)) == [Invoke(target)]
    ensures Encode(Break) == [BreakOp] && Encode(Continue) == [ContinueOp]
    ensures Encode(Return(arg)) == [ReturnOp, Arg(arg)]
    ensures Encode(If(test, [Do(term)])) == [IfOp, PkgLength(3), Test(test), Term(term)]
    ensures Encode(While(test, [Do(term), Break])) == [WhileOp, PkgLength(4), Test(test), Term(term), BreakOp]
    ensures Encode(IfElse(test, [Break], [Do(term)])) ==
            [IfOp, PkgLength(3), Test(test), BreakOp, ElseOp, PkgLength(2), Term(term)]
  {
    assert [Do(term), Break][1..] == [Break] && [Break][1..] == [] && [Do(term)][1..] == [];
    assert EncodeAll([Do(term)]) == [Term(term)];
    assert EncodeAll([Break]) == [BreakOp];
    assert EncodeAll([Do(term), Break]) == [Term(term), BreakOp];
  }

  /** Nothing is evaluated in a list nested more deeply than allowed. */
  lemma TooDeep<S(!new)>(c: Context<S>, ss: seq<Stmt>, store: S, w: Where)
    requires w.room == 0
    ensures Body(c, ss, store, w) == None
  {
  }
}
