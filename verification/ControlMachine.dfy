/**
 The evaluator's control-flow machine: a cursor in a window of the code, a loop level,
 and a pending event that is checked between terms (src/aml_eval_statement.c,
 AmlEvalTermListCode of src/aml_eval.c, AmlMethodInvoke of src/aml_method.c).  On any
 code it restores what it should; on the encoding of structured statements it does what
 the structured semantics says.
 */
module ControlMachine {
  import opened Control
  import opened ControlMeanings
  import opened Folding

  /** A method's code: its place in a block of code. */
  datatype Method = Method(block: Code, start: nat, size: nat)

  ghost predicate CodeAt(data: Code, at: nat, code: Code) {
    at + |code| <= |data| && forall key :: Open(CODE, key) ==> data[at..at + |code|] == code
  }

  /** The statements lie from at to end. */
  ghost predicate ListReady(data: Code, at: nat, end: nat, ss: seq<Stmt>) {
    CodeAt(data, at, EncodeAll(ss)) && end == at + |EncodeAll(ss)|
  }

  /** The statement lies at the cursor, inside the window, and is not followed by a stray Else. */
  ghost predicate StmtReady(data: Code, at: nat, length: nat, s: Stmt) {
    CodeAt(data, at, Encode(s)) && at + |Encode(s)| <= length <= |data| &&
    (at + |Encode(s)| < length ==> data[at + |Encode(s)|] != ElseOp)
  }

  /** Every method's code is the encoding of its statements. */
  ghost predicate Linked<S(!new)>(c: Context<S>, layout: map<nat, Method>) {
    forall key :: Open(LINKED, key) ==> LinkedOpen(c, layout)
  }

  ghost predicate LinkedOpen<S(!new)>(c: Context<S>, layout: map<nat, Method>) {
    forall m :: (m in c.methods <==> m in layout) &&
      (m in layout ==>
         ListReady(layout[m].block, layout[m].start, layout[m].start + layout[m].size, c.methods[m]) &&
         (m in c.ending <==> layout[m].start + layout[m].size == |layout[m].block|))
  }

  /** The machine ended as the structured semantics says. */
  ghost predicate Agrees<S>(expected: Option<End<S>>, ok: bool, event: Event, store: S) {
    if ok then expected == Some(End(event, store)) else expected == None
  }

  /** One statement ended as the structured semantics says. */
  ghost predicate Does<S(!new)>(c: Context<S>, s: Stmt, before: S, w: Where,
                                ok: bool, event: Event, store: S) {
    forall key :: Open(DOES, key) ==> Agrees(Exec(c, s, before, w), ok, event, store)
  }

  /** Without an event the cursor is at the end; with one it may be before it, but never at an Else. */
  ghost predicate Stopped(data: Code, end: nat, cursor: nat, event: Event) {
    cursor <= end && (event == NoEvent ==> cursor == end) &&
      (cursor < end ==> cursor < |data| && data[cursor] != ElseOp)
  }

  lemma CodeIs(data: Code, at: nat, code: Code)
    ensures CodeAt(data, at, code) <==> at + |code| <= |data| && data[at..at + |code|] == code
  {
    assert Open(CODE, 0);
  }

  lemma CodeSplit(data: Code, at: nat, a: Code, b: Code)
    requires CodeAt(data, at, a + b)
    ensures CodeAt(data, at, a) && CodeAt(data, at + |a|, b)
  {
    CodeIs(data, at, a + b);
    CodeIs(data, at, a);
    CodeIs(data, at + |a|, b);
    assert data[at..at + |a|] == data[at..at + |a + b|][..|a|];
    assert data[at + |a|..at + |a + b|] == data[at..at + |a + b|][|a|..];
  }

  lemma CellIs(data: Code, at: nat, code: Code, i: nat)
    requires CodeAt(data, at, code) && i < |code|
    ensures data[at + i] == code[i]
  {
    CodeIs(data, at, code);
    assert data[at + i] == data[at..at + |code|][i];
  }

  /** What If and While look like from the cursor. */
  lemma HeadCells(data: Code, at: nat, op: Cell, test: nat, body: seq<Stmt>, rest: Code)
    requires CodeAt(data, at, [op, PkgLength(2 + |EncodeAll(body)|), Test(test)] + EncodeAll(body) + rest)
    ensures at + 3 + |EncodeAll(body)| + |rest| <= |data|
    ensures data[at] == op && data[at + 1] == PkgLength(2 + |EncodeAll(body)|) && data[at + 2] == Test(test)
    ensures CodeAt(data, at + 3, EncodeAll(body)) && CodeAt(data, at + 3 + |EncodeAll(body)|, rest)
  {
    var head := [op, PkgLength(2 + |EncodeAll(body)|), Test(test)];
    CodeSplit(data, at, head + EncodeAll(body), rest);
    CodeSplit(data, at, head, EncodeAll(body));
    CellIs(data, at, head, 0);
    CellIs(data, at, head, 1);
    CellIs(data, at, head, 2);
  }

  lemma ElseCells(data: Code, at: nat, other: seq<Stmt>)
    requires CodeAt(data, at, [ElseOp, PkgLength(1 + |EncodeAll(other)|)] + EncodeAll(other))
    ensures at + 2 + |EncodeAll(other)| <= |data|
    ensures data[at] == ElseOp && data[at + 1] == PkgLength(1 + |EncodeAll(other)|)
    ensures CodeAt(data, at + 2, EncodeAll(other))
  {
    var head := [ElseOp, PkgLength(1 + |EncodeAll(other)|)];
    CodeSplit(data, at, head, EncodeAll(other));
    CellIs(data, at, head, 0);
    CellIs(data, at, head, 1);
  }

  class Machine<S(!new)> {
    const ctx: Context<S>
    const layout: map<nat, Method>
    const maxDepth: nat
    var data: Code
    var length: nat
    var cursor: nat
    var depth: nat
    var level: nat
    var inMethod: bool
    var event: Event
    var store: S

    constructor (ctx: Context<S>, layout: map<nat, Method>, maxDepth: nat, data: Code, store: S)
      ensures this.ctx == ctx && this.layout == layout && this.maxDepth == maxDepth
      ensures this.data == data && this.store == store
      ensures Valid() && cursor == 0 && length == |data| && depth == 0 && level == 0 && !inMethod && event == NoEvent
    {
      this.ctx, this.layout, this.maxDepth := ctx, layout, maxDepth;
      this.data, this.store := data, store;
      length, cursor, depth, level, inMethod, event := |data|, 0, 0, 0, false, NoEvent;
    }

    ghost predicate Valid()
      reads this
    {
      cursor <= length <= |data|
    }

    ghost function Room(): nat
      reads this
    {
      if depth >= maxDepth then 0 else maxDepth - depth
    }

    /** Where the machine is; last says that the statement's code ends with the data. */
    ghost function Here(last: bool): Where
      reads this
    {
      Where(level, inMethod, Room(), last)
    }

    /** Everything a finished statement gives back: window, depth, loop level and method. */
    twostate predicate Restored()
      reads this
    {
      data == old(data) && length == old(length) && depth == old(depth) && level == old(level) &&
        inMethod == old(inMethod)
    }

    /** AmlDecoderConsumePackageLength and the check that the package lies in the window. */
    method ConsumePackage() returns (ok: bool, n: nat)
      requires Valid()
      modifies `cursor
      ensures ok <==> (old(cursor) < length && data[old(cursor)].PkgLength? &&
                       data[old(cursor)].n <= length - old(cursor))
      ensures ok ==> n == data[old(cursor)].n && cursor == old(cursor) + 1
    {
      var start := cursor;
      if cursor >= length || !data[cursor].PkgLength? {
        return false, 0;
      }
      n := data[cursor].n;
      cursor := cursor + 1;
      if start >= length || n > length - start {
        return false, 0;
      }
      return true, n;
    }

    /** The predicate of If and While, evaluated to an integer. */
    method EvalTest() returns (ok: bool, value: bool)
      requires Valid()
      modifies `cursor, `store
      ensures ok <==> (old(cursor) < length && data[old(cursor)].Test? &&
                       ctx.world.test(data[old(cursor)].test, old(store)).Some?)
      ensures ok ==> (cursor == old(cursor) + 1 &&
                      ctx.world.test(data[old(cursor)].test, old(store)) == Some((value, store)))
    {
      if cursor >= length || !data[cursor].Test? {
        return false, false;
      }
      var after := ctx.world.test(data[cursor].test, store);
      if after.None? {
        return false, false;
      }
      cursor := cursor + 1;
      value, store := after.value.0, after.value.1;
      return true, value;
    }

    // -------------------------------------------------------- term lists

    /** AmlEvalTermListCode. */
    method EvalTermList(start: nat, size: nat, restore: bool, ghost good: bool, ghost ss: seq<Stmt>) returns (ok: bool)
      requires Valid() && event == NoEvent
      requires good ==> Linked(ctx, layout) && ListReady(data, start, start + size, ss)
      modifies this
      ensures ok ==> Restored() && (if restore then cursor == old(cursor) else start <= cursor <= start + size)
      ensures ok ==> start < |old(data)| && size <= |old(data)| - start && old(depth) < maxDepth
      ensures good ==> Agrees(Body(ctx, ss, old(store), old(Here(start + size == |data|))), ok, event, store)
      ensures good && ok && !restore ==> Stopped(data, start + size, cursor, event)
      ensures good && OnlyTerms(ss) && (ss != [] || start + size < |old(data)|) && old(depth) < maxDepth ==>
                (ok <==> InTurn(ctx.world, ss, old(store)).Some?) &&
                (ok ==> event == NoEvent && store == InTurn(ctx.world, ss, old(store)).value)
      decreases Room(), 0
    {
      if good && OnlyTerms(ss) && (ss != [] || start + size < |data|) && depth < maxDepth {
        BodyInTurn(ctx, ss, store, Here(start + size == |data|));
      }
      if start >= |data| || size > |data| - start {
        return false;
      }
      if depth >= maxDepth {
        return false;
      }
      var oldCursor, oldSize, oldDepth := cursor, length, depth;
      cursor := start;
      length := start + size;
      depth := depth + 1;
      ok := RunTerms(good, ss);
      if !ok {
        return false;
      }
      if restore {
        cursor := oldCursor;
      }
      length := oldSize;
      depth := oldDepth;
    }

    /** The loop over the terms of a window: it stops at the first pending event. */
    method RunTerms(ghost good: bool, ghost ss: seq<Stmt>) returns (ok: bool)
      requires Valid() && event == NoEvent
      requires good ==> Linked(ctx, layout) && TermsReady(data, cursor, length, ss)
      modifies this
      ensures ok ==> Restored() && old(cursor) <= cursor <= length
      ensures good ==> Agrees(ExecAll(ctx, ss, old(store), old(Here(length == |data|))), ok, event, store)
      ensures good && ok ==> Stopped(data, length, cursor, event)
      decreases Room(), 6
    {
      ghost var want := ExecAll(ctx, ss, store, Here(length == |data|));
      ghost var rest := ss;
      GoingStarts(ctx, data, cursor, length, Here(length == |data|), store, ss);
      while cursor < length
        invariant Valid() && Restored() && old(cursor) <= cursor
        invariant good ==> (Linked(ctx, layout) &&
                            Going(ctx, data, cursor, length, Here(length == |data|), event, store, rest, want))
        decreases length - cursor
      {
        if event != NoEvent {
          break;
        }
        ok := NextTerm(good, rest, want);
        if !ok {
          return false;
        }
        if good {
          rest := rest[1..];
        }
      }
      if good {
        GoingEnds(ctx, data, cursor, length, Here(length == |data|), event, store, rest, want);
      }
      return true;
    }

    /** One round of the loop. */
    method NextTerm(ghost good: bool, ghost rest: seq<Stmt>, ghost want: Option<End<S>>) returns (ok: bool)
      requires Valid() && cursor < length && event == NoEvent
      requires good ==> (Linked(ctx, layout) &&
                         Going(ctx, data, cursor, length, Here(length == |data|), event, store, rest, want))
      modifies this
      ensures ok ==> Valid() && Restored() && old(cursor) < cursor
      ensures good ==> rest != []
      ensures good && !ok ==> want == None
      ensures good && ok ==> Going(ctx, data, cursor, length, Here(length == |data|), event, store, rest[1..], want)
      decreases Room(), 5
    {
      ghost var code, at, before := data, cursor, store;
      if good {
        GoingNext(ctx, data, cursor, length, Here(length == |data|), store, rest, want);
      }
      ok := EvalTerm(good, if good then rest[0] else Break);
      if good {
        GoingOn(ctx, code, at, cursor, old(length), old(Here(length == |data|)), ok, event, before, store, rest, want);
      }
    }

    // -------------------------------------------------------------- terms

    /** One term at the cursor; s is the statement it encodes, when the code is an encoding. */
    method EvalTerm(ghost good: bool, ghost s: Stmt) returns (ok: bool)
      requires Valid() && cursor < length && event == NoEvent
      requires good ==> Linked(ctx, layout) && StmtReady(data, cursor, length, s)
      modifies this
      ensures ok ==> Valid() && Restored() && old(cursor) < cursor
      ensures good ==> Does(ctx, s, old(store), old(Here(cursor + |Encode(s)| == |data|)), ok, event, store)
      ensures good && ok ==> Stopped(data, old(cursor) + |Encode(s)|, cursor, event)
      decreases Room(), 4
    {
      ghost var at, last := cursor, good && cursor + |Encode(s)| == |data|;
      if good {
        FirstCell(data, at, s);
      }
      var op := data[cursor];
      cursor := cursor + 1;
      match op
      case IfOp =>
        ok := EvalIfElse(good, s);
      case WhileOp => ok := EvalWhile(good, s);
      case Invoke(target) => ok := MethodInvoke(target, last, good);
      case ReturnOp => ok := EvalReturn(good, s);
      case _ => ok := EvalSimple(op, last, good, s);
    }

    /** A term of one cell; Break and Continue are ignored outside a loop. */
    method EvalSimple(op: Cell, ghost last: bool, ghost good: bool, ghost s: Stmt) returns (ok: bool)
      requires event == NoEvent
      requires good ==> Encode(s)[0] == op && (op.Term? || op.BreakOp? || op.ContinueOp?)
      modifies `event, `store
      ensures good ==> |Encode(s)| == 1 && Does(ctx, s, old(store), Here(last), ok, event, store)
    {
      match op
      case Term(term) =>
        var after := ctx.world.term(term, store);
        if after.None? {
          return false;
        }
        store := after.value;
        ok := true;
      case BreakOp =>
        event := if level <= 0 then NoEvent else BreakEvent;
        ok := true;
      case ContinueOp =>
        event := if level <= 0 then NoEvent else ContinueEvent;
        ok := true;
      case _ => ok := false;
    }

    /** DefReturn. */
    method EvalReturn(ghost good: bool, ghost s: Stmt) returns (ok: bool)
      requires Valid() && 0 < cursor && event == NoEvent
      requires good ==> s.Return? && StmtReady(data, cursor - 1, length, s)
      modifies `cursor, `store, `event
      ensures ok ==> Valid() && old(cursor) <= cursor
      ensures good ==> Does(ctx, s, old(store), Here(cursor - 1 + |Encode(s)| == |data|), ok, event, store)
      ensures good && ok ==> cursor == old(cursor) - 1 + |Encode(s)|
    {
      if good {
        CellIs(data, cursor - 1, Encode(s), 1);
      }
      if !inMethod {
        return false;
      }
      if cursor >= length || !data[cursor].Arg? {
        return false;
      }
      var after := ctx.world.arg(data[cursor].arg, store);
      if after.None? {
        return false;
      }
      cursor := cursor + 1;
      store := after.value;
      event := ReturnEvent;
      return true;
    }

    /** AmlEvalIfElse. */
    method EvalIfElse(ghost good: bool, ghost s: Stmt) returns (ok: bool)
      requires Valid() && 0 < cursor && event == NoEvent
      requires good ==> Linked(ctx, layout) && (s.If? || s.IfElse?) && StmtReady(data, cursor - 1, length, s)
      modifies this
      ensures ok ==> Valid() && Restored() && old(cursor) < cursor
      ensures good ==> Does(ctx, s, old(store), old(Here(cursor - 1 + |Encode(s)| == |data|)), ok, event, store)
      ensures good && ok ==> Stopped(data, old(cursor) - 1 + |Encode(s)|, cursor, event)
      decreases Room(), 3
    {
      ghost var end := cursor;
      if good {
        IfCells(data, cursor - 1, length, s);
        end := cursor - 1 + |Encode(s)|;
      }
      ok := EvalParts(good, s, end);
    }

    /** The predicate, the body and the alternative of an If. */
    method EvalParts(ghost good: bool, ghost s: Stmt, ghost end: nat) returns (ok: bool)
      requires Valid() && event == NoEvent
      requires good ==> Linked(ctx, layout) && IfReady(data, cursor, length, s, end)
      modifies this
      ensures ok ==> Valid() && Restored() && old(cursor) < cursor
      ensures good ==> Does(ctx, s, old(store), old(Here(end == |data|)), ok, event, store)
      ensures good && ok ==> Stopped(data, end, cursor, event)
      decreases Room(), 3, 0
    {
      ghost var before := store;
      var pkgStart := cursor;
      var n, value;
      ok, n, value := EvalHead(good, s, end);
      if !ok {
        if good {
          IfFails(ctx, s, before, Here(end == |data|), event, store);
        }
        return false;
      }
      ghost var mid := store;
      ok := EvalBranch(value, n - (cursor - pkgStart), end, good, s);
      if good {
        IfRuns(ctx, s, before, value, mid, old(Here(end == |data|)), ok, event, store);
      }
    }

    /** The body, run or skipped, and what follows it. */
    method EvalBranch(value: bool, size: nat, ghost end: nat, ghost good: bool, ghost s: Stmt) returns (ok: bool)
      requires Valid() && event == NoEvent && size <= length - cursor
      requires good ==> Linked(ctx, layout) && (s.If? || s.IfElse?) && size == |EncodeAll(s.body)|
      requires good ==> ListReady(data, cursor, cursor + size, s.body) && TailReady(data, cursor + size, length, s, end)
      modifies this
      ensures ok ==> Valid() && Restored() && old(cursor) <= cursor
      ensures good && value ==>
              Agrees(Body(ctx, s.body, old(store), old(Here(s.If? && end == |data|))), ok, event, store)
      ensures good && !value && s.IfElse? ==>
                Agrees(Body(ctx, s.other, old(store), old(Here(end == |data|))), ok, event, store)
      ensures good && !value && s.If? ==> ok && event == NoEvent && store == old(store)
      ensures good && ok ==> Stopped(data, end, cursor, event)
      decreases Room(), 2, 2
    {
      var bodyEnd := cursor + size;
      if value {
        ok := EvalTermList(cursor, size, false, good, if good then s.body else []);
        if !ok {
          return false;
        }
      } else {
        cursor := bodyEnd;
      }
      ok := EvalAlternative(value, bodyEnd, end, good, s);
    }

    /** The package length and the predicate. */
    method EvalHead(ghost good: bool, ghost s: Stmt, ghost end: nat) returns (ok: bool, n: nat, value: bool)
      requires Valid()
      requires good ==> IfReady(data, cursor, length, s, end)
      modifies `cursor, `store
      ensures ok ==> Valid() && old(cursor) < cursor && cursor - old(cursor) <= n <= length - old(cursor)
      ensures good ==> (ok <==> ctx.world.test(s.test, old(store)).Some?)
      ensures good && ok ==> ctx.world.test(s.test, old(store)) == Some((value, store))
      ensures good && ok ==> n == 2 + |EncodeAll(s.body)| && cursor == old(cursor) + 2
    {
      var pkgStart := cursor;
      ok, n := ConsumePackage();
      value := false;
      if !ok {
        return false, n, value;
      }
      ok, value := EvalTest();
      if !ok || cursor - pkgStart > n {
        return false, n, value;
      }
    }

    /** What follows the body of an If: an Else part, run or skipped, or nothing. */
    method EvalAlternative(value: bool, ghost bodyEnd: nat, ghost end: nat, ghost good: bool, ghost s: Stmt)
      returns (ok: bool)
      requires Valid() && (!value ==> event == NoEvent)
      requires good ==> (Linked(ctx, layout) && Stopped(data, bodyEnd, cursor, event) &&
                         TailReady(data, bodyEnd, length, s, end))
      modifies this
      ensures ok ==> Valid() && Restored() && old(cursor) <= cursor
      ensures good && (value || s.If?) ==> ok && event == old(event) && store == old(store)
      ensures good && !value && s.IfElse? ==>
                Agrees(Body(ctx, s.other, old(store), old(Here(end == |data|))), ok, event, store)
      ensures good && ok ==> Stopped(data, end, cursor, event)
      decreases Room(), 2, 1
    {
      if good {
        AfterBody(data, bodyEnd, end, length, cursor, event, s.IfElse?, if s.IfElse? then s.other else []);
      }
      ok := true;
      if cursor < length && data[cursor] == ElseOp {
        cursor := cursor + 1;
        ok := EvalElse(value, good, s);
      }
    }

    /** The Else part, behind its opcode. */
    method EvalElse(value: bool, ghost good: bool, ghost s: Stmt) returns (ok: bool)
      requires Valid() && 0 < cursor && (!value ==> event == NoEvent)
      requires good ==> Linked(ctx, layout) && s.IfElse? && ElseReady(data, cursor - 1, length, s.other)
      modifies this
      ensures ok ==> Valid() && Restored() && old(cursor) <= cursor
      ensures value && good ==> ok && event == old(event) && store == old(store)
      ensures !value && good ==>
                Agrees(Body(ctx, s.other, old(store), old(Here(cursor + 1 + |EncodeAll(s.other)| == |data|))), ok,
                       event, store)
      ensures good && ok ==> Stopped(data, old(cursor) + 1 + |EncodeAll(s.other)|, cursor, event)
      decreases Room(), 2, 0
    {
      if good {
        ElseCells(data, cursor - 1, s.other);
      }
      var pkgStart := cursor;
      var n;
      ok, n := ConsumePackage();
      if !ok {
        return false;
      }
      if value {
        cursor := pkgStart + n;
        return true;
      }
      // A package too short for its own length wraps to a size no block has.
      if n < cursor - pkgStart {
        return false;
      }
      ok := EvalTermList(cursor, n - (cursor - pkgStart), false, good, if good then s.other else []);
    }

    /**
     AmlEvalWhile.  On any code, a while that succeeds has restored the loop level and
     the window and leaves no event but a return pending.
     */
    method EvalWhile(ghost good: bool, ghost s: Stmt) returns (ok: bool)
      requires Valid() && 0 < cursor && event == NoEvent
      requires good ==> Linked(ctx, layout) && s.While? && StmtReady(data, cursor - 1, length, s)
      modifies this
      ensures ok ==> Valid() && Restored() && old(cursor) < cursor && (event == NoEvent || event == ReturnEvent)
      ensures good ==> Does(ctx, s, old(store), old(Here(cursor - 1 + |Encode(s)| == |data|)), ok, event, store)
      ensures good && ok ==> cursor == old(cursor) - 1 + |Encode(s)|
      decreases Room(), 3
    {
      if good {
        WhileCells(data, cursor - 1, length, s);
      }
      ghost var before, last := store, good && cursor - 1 + |Encode(s)| == |data|;
      ghost var want := Exec(ctx, s, store, Here(last));
      var pkgStart := cursor;
      var n, value;
      ok, n := ConsumePackage();
      if !ok {
        return false;
      }
      var predicateStart := cursor;
      ok, value := EvalTest();
      if !ok {
        return false;
      }
      if cursor - pkgStart > n {
        return false;
      }
      if good {
        TurningStarts(ctx, s, before, value, store, Here(last));
      }
      ok := RunLoop(predicateStart, n - (cursor - pkgStart), value, last, good, s, want);
      cursor := pkgStart + n;
    }

    /** The loop, from the first test on. */
    method RunLoop(predicateStart: nat, size: nat, value: bool, ghost last: bool, ghost good: bool, ghost s: Stmt,
                   ghost want: Option<End<S>>)
      returns (ok: bool)
      requires Valid() && event == NoEvent && predicateStart <= cursor
      requires good ==> (Linked(ctx, layout) && LoopReady(data, predicateStart, size, length, s) &&
                         cursor == predicateStart + 1)
      requires good ==> (Turning(ctx, s, value, store, Here(last), 0, want) &&
                         last == (predicateStart + 1 + size == |data|))
      modifies this
      ensures ok ==> Restored() && (event == NoEvent || event == ReturnEvent)
      ensures good ==> Agrees(want, ok, event, store)
      decreases Room(), 2
    {
      var termStart := cursor;
      var more := value;
      var i := 0;
      while more
        invariant Valid() && Restored() && event == NoEvent && predicateStart <= cursor
        invariant i <= ctx.maxIterations
        invariant good ==> Turning(ctx, s, more, store, Here(last), i, want)
        decreases ctx.maxIterations - i
      {
        if i >= ctx.maxIterations {
          if good {
            TurningStops(ctx, s, store, Here(last), i, want);
          }
          return false;
        }
        var done;
        ok, more, done := RunIteration(predicateStart, termStart, size, i, last, good, s, want);
        if !ok || done {
          return;
        }
        i := i + 1;
      }
      if good {
        TurningDone(ctx, s, store, Here(last), i, want);
      }
      return true;
    }

    /** The body of a loop, one level deeper and with no event pending. */
    method RunBody(termStart: nat, size: nat, ghost good: bool, ghost s: Stmt) returns (ok: bool)
      requires Valid() && level < ctx.maxLevel
      requires good ==> Linked(ctx, layout) && s.While? && ListReady(data, termStart, termStart + size, s.body)
      modifies this
      ensures ok ==> Valid() && Restored() && cursor == old(cursor)
      ensures good ==> Agrees(Body(ctx, s.body, old(store),
                                   old(Here(termStart + size == |data|).(level := level + 1))), ok, event, store)
      decreases Room(), 1, 0
    {
      level := level + 1;
      event := NoEvent;
      ok := EvalTermList(termStart, size, true, good, if good then s.body else []);
      if ok {
        level := level - 1;
      }
    }

    /** One iteration: the body, the events meant for the loop, and the test again unless the loop is done. */
    method RunIteration(predicateStart: nat, termStart: nat, size: nat, ghost i: nat, ghost last: bool,
                        ghost good: bool,
                        ghost s: Stmt, ghost want: Option<End<S>>)
      returns (ok: bool, value: bool, done: bool)
      requires Valid() && event == NoEvent && predicateStart <= cursor && i < ctx.maxIterations
      requires good ==> (Linked(ctx, layout) && LoopReady(data, predicateStart, size, length, s) &&
                         termStart == predicateStart + 1)
      requires good ==> (Turning(ctx, s, true, store, Here(last), i, want) &&
                         last == (predicateStart + 1 + size == |data|))
      modifies this
      ensures ok ==> Restored() && (event == NoEvent || event == ReturnEvent)
      ensures ok && !done ==> Valid() && event == NoEvent && predicateStart <= cursor
      ensures good && (!ok || done) ==> Agrees(want, ok, event, store)
      ensures good && ok && !done ==> Turning(ctx, s, value, store, Here(last), i + 1, want)
      decreases Room(), 1, 1
    {
      ghost var before, here := store, Here(last);
      done, value := false, false;
      if level >= ctx.maxLevel {
        if good {
          TurningTooDeep(ctx, s, store, Here(last), i, want);
        }
        return false, value, done;
      }
      var oldPendingEvent := event;
      ok := RunBody(termStart, size, good, s);
      if good {
        TurningBody(ctx, s, before, here, i, want, ok, event, store);
      }
      if !ok {
        return false, value, done;
      }
      ok, value, done := AfterIteration(predicateStart, oldPendingEvent, i, last, good, s, want);
    }

    /** The events a loop handles, and the test again. */
    method AfterIteration(predicateStart: nat, oldPendingEvent: Event, ghost i: nat, ghost last: bool, ghost good: bool,
                          ghost s: Stmt, ghost want: Option<End<S>>)
      returns (ok: bool, value: bool, done: bool)
      requires Valid() && oldPendingEvent == NoEvent && predicateStart <= cursor
      requires good ==> s.While? && LoopReady(data, predicateStart, |EncodeAll(s.body)|, length, s)
      requires good ==> AfterTurn(ctx, s, Here(last), i, event, store, want)
      modifies `cursor, `event, `store
      ensures ok ==> (event == NoEvent || event == ReturnEvent)
      ensures ok && !done ==> Valid() && event == NoEvent && predicateStart <= cursor
      ensures good && (!ok || done) ==> Agrees(want, ok, event, store)
      ensures good && ok && !done ==> Turning(ctx, s, value, store, Here(last), i + 1, want)
    {
      value, done := false, false;
      var pendingEvent := event;
      if pendingEvent != NoEvent && pendingEvent != BreakEvent && pendingEvent != ContinueEvent {
        done := true;
        return true, value, done;
      }
      event := oldPendingEvent;
      if pendingEvent == BreakEvent {
        done := true;
        return true, value, done;
      }
      cursor := predicateStart;
      ghost var t := store;
      ok, value := EvalTest();
      if good {
        TurningTest(ctx, s, t, Here(last), i + 1, want, pendingEvent, ok, value, store);
      }
    }

    /**
     AmlMethodInvoke.  The snapshot it commits puts back the block of code, the window,
     the loop level and the pending event, so a Break that ends the method's body early
     ends it like a Return.
     */
    method MethodInvoke(target: nat, ghost last: bool, ghost good: bool) returns (ok: bool)
      requires Valid() && event == NoEvent
      requires good ==> Linked(ctx, layout)
      modifies this
      ensures ok ==> Valid() && Restored() && cursor == old(cursor) && event == NoEvent
      ensures good ==> Does(ctx, Call(target), old(store), old(Here(last)), ok, event, store)
      decreases Room(), 3
    {
      assert Open(LINKED, 0);
      if target !in layout {
        return false;
      }
      var m := layout[target];
      var oldData, oldLength, oldCursor := data, length, cursor;
      var oldLevel, oldInMethod, oldEvent := level, inMethod, event;
      data, length, cursor, inMethod := m.block, |m.block|, 0, true;
      ok := EvalTermList(m.start, m.size, true, good, if good then ctx.methods[target] else []);
      if ok {
        data, length, cursor, level, inMethod, event := oldData, oldLength, oldCursor, oldLevel, oldInMethod, oldEvent;
      }
    }
  }

  /** The statements fill the window from the cursor on. */
  ghost predicate TermsReady(data: Code, cursor: nat, length: nat, ss: seq<Stmt>) {
    CodeAt(data, cursor, EncodeAll(ss)) && length == cursor + |EncodeAll(ss)|
  }

  /** The loop is on its way to the wanted result. */
  ghost predicate Going<S(!new)>(c: Context<S>, data: Code, cursor: nat, length: nat, w: Where,
                                 event: Event, store: S, rest: seq<Stmt>, want: Option<End<S>>) {
    forall key :: Open(GOING, key) ==>
      if event == NoEvent then TermsReady(data, cursor, length, rest) && want == ExecAll(c, rest, store, w)
      else want == Some(End(event, store)) && Stopped(data, length, cursor, event)
  }

  lemma GoingStarts<S(!new)>(c: Context<S>, data: Code, cursor: nat, length: nat, w: Where,
                             store: S, ss: seq<Stmt>)
    ensures TermsReady(data, cursor, length, ss) ==>
              Going(c, data, cursor, length, w, NoEvent, store, ss, ExecAll(c, ss, store, w))
  {
  }

  lemma GoingEnds<S(!new)>(c: Context<S>, data: Code, cursor: nat, length: nat, w: Where,
                           event: Event, store: S, rest: seq<Stmt>, want: Option<End<S>>)
    requires Going(c, data, cursor, length, w, event, store, rest, want)
    requires event == NoEvent ==> cursor >= length
    ensures want == Some(End(event, store)) && Stopped(data, length, cursor, event)
  {
    assert Open(GOING, 0);
    if rest != [] {
      assert EncodeAll(rest) == Encode(rest[0]) + EncodeAll(rest[1..]);
    }
  }

  lemma GoingNext<S(!new)>(c: Context<S>, data: Code, cursor: nat, length: nat, w: Where,
                           store: S, rest: seq<Stmt>, want: Option<End<S>>)
    requires Going(c, data, cursor, length, w, NoEvent, store, rest, want) && cursor < length
    ensures rest != [] && StmtReady(data, cursor, length, rest[0])
  {
    assert Open(GOING, 0);
    FirstStmtReady(data, cursor, length, rest);
  }

  lemma FirstStmtReady(data: Code, cursor: nat, length: nat, rest: seq<Stmt>)
    requires TermsReady(data, cursor, length, rest) && cursor < length
    ensures rest != [] && StmtReady(data, cursor, length, rest[0])
    ensures TermsReady(data, cursor + |Encode(rest[0])|, length, rest[1..])
  {
    CodeSplit(data, cursor, Encode(rest[0]), EncodeAll(rest[1..]));
    if |rest| > 1 {
      CodeSplit(data, cursor + |Encode(rest[0])|, Encode(rest[1]), EncodeAll(rest[1..][1..]));
      CellIs(data, cursor + |Encode(rest[0])|, Encode(rest[1]), 0);
    }
  }

  lemma GoingOn<S(!new)>(c: Context<S>, data: Code, at: nat, cursor: nat, length: nat, w: Where,
                         ok: bool, event: Event, before: S, store: S, rest: seq<Stmt>, want: Option<End<S>>)
    requires rest != [] && at < length && Going(c, data, at, length, w, NoEvent, before, rest, want)
    requires Does(c, rest[0], before, w.(last := at + |Encode(rest[0])| == |data|), ok, event, store)
    requires w.last == (length == |data|)
    requires ok ==> Stopped(data, at + |Encode(rest[0])|, cursor, event)
    ensures !ok ==> want == None
    ensures ok ==> Going(c, data, cursor, length, w, event, store, rest[1..], want)
  {
    assert Open(GOING, 0) && Open(DOES, 0);
    FirstStmtReady(data, at, length, rest);
  }

  lemma FirstCell(data: Code, at: nat, s: Stmt)
    requires CodeAt(data, at, Encode(s))
    ensures at < |data| && data[at] == Encode(s)[0]
  {
    CellIs(data, at, Encode(s), 0);
  }

  // ------------------------------------------------------- if and while

  lemma IfFails<S(!new)>(c: Context<S>, s: Stmt, before: S, w: Where, event: Event, store: S)
    requires (s.If? || s.IfElse?) && c.world.test(s.test, before) == None
    ensures Does(c, s, before, w, false, event, store)
  {
  }

  lemma IfRuns<S(!new)>(c: Context<S>, s: Stmt, before: S, value: bool, mid: S, w: Where,
                        ok: bool, event: Event, store: S)
    requires (s.If? || s.IfElse?) && c.world.test(s.test, before) == Some((value, mid))
    requires value ==> Agrees(Body(c, s.body, mid, w.(last := s.If? && w.last)), ok, event, store)
    requires !value && s.IfElse? ==> Agrees(Body(c, s.other, mid, w), ok, event, store)
    requires !value && s.If? ==> ok && event == NoEvent && store == mid
    ensures Does(c, s, before, w, ok, event, store)
  {
  }

  ghost predicate ElseReady(data: Code, at: nat, length: nat, other: seq<Stmt>) {
    CodeAt(data, at, [ElseOp, PkgLength(1 + |EncodeAll(other)|)] + EncodeAll(other)) &&
    at + 2 + |EncodeAll(other)| <= length <= |data|
  }

  /** From its package length on, an If that ends at end. */
  ghost predicate IfReady(data: Code, pkgStart: nat, length: nat, s: Stmt, end: nat) {
    (s.If? || s.IfElse?) && pkgStart + 1 < length <= |data| &&
    data[pkgStart] == PkgLength(2 + |EncodeAll(s.body)|) && data[pkgStart + 1] == Test(s.test) &&
    pkgStart + 2 + |EncodeAll(s.body)| <= length &&
    ListReady(data, pkgStart + 2, pkgStart + 2 + |EncodeAll(s.body)|, s.body) &&
    TailReady(data, pkgStart + 2 + |EncodeAll(s.body)|, length, s, end)
  }

  /** What follows the body of an If. */
  ghost predicate TailReady(data: Code, bodyEnd: nat, length: nat, s: Stmt, end: nat) {
    (s.If? || s.IfElse?) && end <= length <= |data| && (end < length ==> data[end] != ElseOp) &&
    if s.If? then end == bodyEnd
    else ElseReady(data, bodyEnd, length, s.other) && end == bodyEnd + 2 + |EncodeAll(s.other)|
  }

  lemma IfCells(data: Code, at: nat, length: nat, s: Stmt)
    requires (s.If? || s.IfElse?) && StmtReady(data, at, length, s)
    ensures IfReady(data, at + 1, length, s, at + |Encode(s)|)
  {
    if s.If? {
      PlainIfCells(data, at, length, s);
    } else {
      IfElseCells(data, at, length, s);
    }
  }

  lemma PlainIfCells(data: Code, at: nat, length: nat, s: Stmt)
    requires s.If? && StmtReady(data, at, length, s)
    ensures IfReady(data, at + 1, length, s, at + |Encode(s)|)
  {
    var code := [IfOp, PkgLength(2 + |EncodeAll(s.body)|), Test(s.test)] + EncodeAll(s.body);
    assert Encode(s) == code && code + [] == code;
    HeadCells(data, at, IfOp, s.test, s.body, []);
  }

  lemma IfElseCells(data: Code, at: nat, length: nat, s: Stmt)
    requires s.IfElse? && StmtReady(data, at, length, s)
    ensures IfReady(data, at + 1, length, s, at + |Encode(s)|)
  {
    HeadCells(data, at, IfOp, s.test, s.body, [ElseOp, PkgLength(1 + |EncodeAll(s.other)|)] + EncodeAll(s.other));
  }

  lemma WhileCells(data: Code, at: nat, length: nat, s: Stmt)
    requires s.While? && StmtReady(data, at, length, s)
    ensures at + 2 < length && data[at + 1] == PkgLength(2 + |EncodeAll(s.body)|) && data[at + 2] == Test(s.test)
    ensures |Encode(s)| == 3 + |EncodeAll(s.body)| && LoopReady(data, at + 2, |EncodeAll(s.body)|, length, s)
  {
    var head := [WhileOp, PkgLength(2 + |EncodeAll(s.body)|), Test(s.test)];
    assert Encode(s) == head + EncodeAll(s.body) + [];
    HeadCells(data, at, WhileOp, s.test, s.body, []);
  }

  /** The loop's test and body lie at the place its predicate starts. */
  ghost predicate LoopReady(data: Code, predicateStart: nat, size: nat, length: nat, s: Stmt) {
    s.While? && predicateStart < length <= |data| && data[predicateStart] == Test(s.test) &&
      size == |EncodeAll(s.body)| &&
    ListReady(data, predicateStart + 1, predicateStart + 1 + size, s.body)
  }

  /** Where the cursor may be after the body of an If that ends at bodyEnd, and what is found there. */
  lemma AfterBody(data: Code, bodyEnd: nat, end: nat, length: nat, cursor: nat, event: Event, hasElse: bool,
                  other: seq<Stmt>)
    requires Stopped(data, bodyEnd, cursor, event) && end <= length <= |data| && (end < length ==> data[end] != ElseOp)
    requires if hasElse then ElseReady(data, bodyEnd, length, other) && end == bodyEnd + 2 + |EncodeAll(other)|
             else end == bodyEnd
    ensures cursor < length && data[cursor] == ElseOp ==> hasElse && cursor == bodyEnd
    ensures !(cursor < length && data[cursor] == ElseOp) ==>
              Stopped(data, end, cursor, event) && (hasElse ==> event != NoEvent)
  {
    if hasElse {
      ElseIsThere(data, bodyEnd, length, other);
    }
  }

  lemma ElseIsThere(data: Code, at: nat, length: nat, other: seq<Stmt>)
    requires ElseReady(data, at, length, other)
    ensures at + 2 + |EncodeAll(other)| <= length <= |data| && data[at] == ElseOp
  {
    ElseCells(data, at, other);
  }

  /** The loop has been tested i + 1 times and is on its way to the wanted result. */
  ghost predicate Turning<S(!new)>(c: Context<S>, s: Stmt, value: bool, store: S, w: Where, i: nat,
                                   want: Option<End<S>>)
    requires s.While?
  {
    forall key :: Open(TURNING, key) ==> want == Iterate(c, s.test, s.body, value, store, w, i)
  }

  lemma TurningStarts<S(!new)>(c: Context<S>, s: Stmt, before: S, value: bool, store: S, w: Where)
    requires s.While? && c.world.test(s.test, before) == Some((value, store))
    ensures Turning(c, s, value, store, w, 0, Exec(c, s, before, w))
  {
  }

  lemma TurningStops<S(!new)>(c: Context<S>, s: Stmt, store: S, w: Where, i: nat, want: Option<End<S>>)
    requires s.While? && i >= c.maxIterations && Turning(c, s, true, store, w, i, want)
    ensures want == None
  {
    assert Open(TURNING, 0);
  }

  lemma TurningTooDeep<S(!new)>(c: Context<S>, s: Stmt, store: S, w: Where, i: nat, want: Option<End<S>>)
    requires s.While? && w.level >= c.maxLevel && Turning(c, s, true, store, w, i, want)
    ensures want == None
  {
    assert Open(TURNING, 0);
  }

  lemma TurningDone<S(!new)>(c: Context<S>, s: Stmt, store: S, w: Where, i: nat, want: Option<End<S>>)
    requires s.While? && Turning(c, s, false, store, w, i, want)
    ensures want == Some(End(NoEvent, store))
  {
    assert Open(TURNING, 0);
  }

  /** After the body, what is left is the loop itself, a return, or the end. */
  ghost predicate AfterTurn<S(!new)>(c: Context<S>, s: Stmt, w: Where, i: nat, event: Event, store: S,
                                     want: Option<End<S>>)
    requires s.While?
  {
    if event == ReturnEvent then want == Some(End(ReturnEvent, store))
    else if event == BreakEvent then want == Some(End(NoEvent, store))
    else forall key :: Open(TURNING, key) ==> want == Loop(c, s.test, s.body, store, w, i + 1)
  }

  lemma TurningBody<S(!new)>(c: Context<S>, s: Stmt, before: S, w: Where, i: nat, want: Option<End<S>>,
                             ok: bool, event: Event, store: S)
    requires s.While? && i < c.maxIterations && w.level < c.maxLevel
    requires Turning(c, s, true, before, w, i, want)
    requires Agrees(Body(c, s.body, before, w.(level := w.level + 1)), ok, event, store)
    ensures !ok ==> want == None
    ensures ok ==> AfterTurn(c, s, w, i, event, store, want)
  {
    assert Open(TURNING, 0);
  }

  lemma TurningTest<S(!new)>(c: Context<S>, s: Stmt, before: S, w: Where, i: nat, want: Option<End<S>>,
                             event: Event, ok: bool, value: bool, store: S)
    requires s.While? && 0 < i && (event == NoEvent || event == ContinueEvent)
    requires AfterTurn(c, s, w, i - 1, event, before, want)
    requires ok <==> c.world.test(s.test, before).Some?
    requires ok ==> c.world.test(s.test, before) == Some((value, store))
    ensures !ok ==> want == None
    ensures ok ==> Turning(c, s, value, store, w, i, want)
  {
    assert Open(TURNING, 0);
  }
}
