/**
 Control flow of the evaluator, as structured statements and as the cells the
 interpreter's cursor moves over.  The statements other than If, While, Break,
 Continue, Return and method calls are arbitrary partial functions on the store.
 */
module Control {

  datatype Option<T> = None | Some(value: T)

  datatype Stmt =
    | Do(term: nat)
    | Call(target: nat)
    | If(test: nat, body: seq<Stmt>)
    | IfElse(test: nat, body: seq<Stmt>, other: seq<Stmt>)
    | While(test: nat, body: seq<Stmt>)
    | Break
    | Continue
    | Return(arg: nat)

  /** How the store is changed by the parts that are not control flow; None is an error. */
  datatype World<!S> = World(term: (nat, S) -> Option<S>, test: (nat, S) -> Option<(bool, S)>,
                             arg: (nat, S) -> Option<S>)

  /** ending: the methods whose code is the last thing in its block of data. */
  datatype Context<!S> =
    Context(world: World<S>, methods: map<nat, seq<Stmt>>, ending: set<nat>, maxIterations: nat, maxLevel: nat)

  datatype Event = NoEvent | BreakEvent | ContinueEvent | ReturnEvent

  /** A finished execution: how it ended, and the store. */
  datatype End<S> = End(event: Event, store: S)

  /**
   Where a statement is executed: the number of loops around it, counted through calls;
   whether a method is; how many more nested term lists are allowed; and whether its code
   ends with the data.
   */
  datatype Where = Where(level: nat, inMethod: bool, room: nat, last: bool)

  // ------------------------------------------------ structured semantics

  /** One statement. */
  function Exec<S(!new)>(c: Context<S>, s: Stmt, store: S, w: Where): Option<End<S>>
    decreases w.room, 1, 0
  {
    match s
    case Do(term) => Plain(c.world.term(term, store), NoEvent)
    case Call(target) =>
      if target !in c.methods then None
      else
        (match Body(c, c.methods[target], store, w.(inMethod := true, last := target in c.ending))
         case None => None
         case Some(end) => Some(End(NoEvent, end.store)))
    case If(test, body) =>
      (match c.world.test(test, store)
       case None => None
       case Some((true, t)) => Body(c, body, t, w)
       case Some((false, t)) => Some(End(NoEvent, t)))
    case IfElse(test, body, other) =>
      (match c.world.test(test, store)
       case None => None
       case Some((true, t)) => Body(c, body, t, w.(last := false))
       case Some((false, t)) => Body(c, other, t, w))
    case While(test, body) => Loop(c, test, body, store, w, 0)
    case Break => Some(End(if w.level > 0 then BreakEvent else NoEvent, store))
    case Continue => Some(End(if w.level > 0 then ContinueEvent else NoEvent, store))
    case Return(arg) => if w.inMethod then Plain(c.world.arg(arg, store), ReturnEvent) else None
  }

  function Plain<S>(after: Option<S>, event: Event): Option<End<S>> {
    match after
    case None => None
    case Some(store) => Some(End(event, store))
  }

  /** The first of n statements ends with the data only if it is the only one. */
  function First(w: Where, n: nat): Where {
    w.(last := w.last && n == 1)
  }

  /** A list in order, until a statement ends with an event. */
  function ExecAll<S(!new)>(c: Context<S>, ss: seq<Stmt>, store: S, w: Where): Option<End<S>>
    decreases w.room, 2, |ss|
  {
    if ss == [] then Some(End(NoEvent, store))
    else
      match Exec(c, ss[0], store, First(w, |ss|))
      case None => None
      case Some(end) => if end.event == NoEvent then ExecAll(c, ss[1..], end.store, w) else Some(end)
  }

  /** A nested list; an empty one at the end of the data is an error. */
  function Body<S(!new)>(c: Context<S>, ss: seq<Stmt>, store: S, w: Where): Option<End<S>>
    decreases w.room, 0, 0
  {
    if w.room == 0 || (ss == [] && w.last) then None else ExecAll(c, ss, store, w.(room := w.room - 1))
  }

  /** A loop before its test is evaluated for the i-th time. */
  function Loop<S(!new)>(c: Context<S>, test: nat, body: seq<Stmt>, store: S, w: Where, i: nat): Option<End<S>>
    decreases w.room, 0, 2 + 2 * Left(c, i)
  {
    match c.world.test(test, store)
    case None => None
    case Some((value, t)) => Iterate(c, test, body, value, t, w, i)
  }

  /** A loop after its test. */
  function Iterate<S(!new)>(c: Context<S>, test: nat, body: seq<Stmt>, value: bool, store: S, w: Where,
                            i: nat): Option<End<S>>
    decreases w.room, 0, 1 + 2 * Left(c, i)
  {
    if !value then Some(End(NoEvent, store))
    else if i >= c.maxIterations || w.level >= c.maxLevel then None
    else
      match Body(c, body, store, w.(level := w.level + 1))
      case None => None
      case Some(end) =>
        if end.event == ReturnEvent then Some(end)
        else if end.event == BreakEvent then Some(End(NoEvent, end.store))
        else Loop(c, test, body, end.store, w, i + 1)
  }

  function Left<S>(c: Context<S>, i: nat): nat {
    if i < c.maxIterations then c.maxIterations - i else 0
  }

  // ------------------------------------------------------------- encoding

  /** What the cursor moves over; one cell stands for one encoded item. */
  datatype Cell =
    | IfOp | ElseOp | WhileOp | BreakOp | ContinueOp | ReturnOp
    | PkgLength(n: nat) | Test(test: nat) | Arg(arg: nat) | Term(term: nat) | Invoke(target: nat)

  type Code = seq<Cell>

  function Encode(s: Stmt): (r: Code)
    ensures r != [] && r[0] != ElseOp
  {
    match s
    case Do(term) => [Term(term)]
    case Call(target) => [Invoke(target)]
    case If(test, body) => [IfOp, PkgLength(2 + |EncodeAll(body)|), Test(test)] + EncodeAll(body)
    case IfElse(test, body, other) =>
      [IfOp, PkgLength(2 + |EncodeAll(body)|), Test(test)] + EncodeAll(body) +
      ([ElseOp, PkgLength(1 + |EncodeAll(other)|)] + EncodeAll(other))
    case While(test, body) => [WhileOp, PkgLength(2 + |EncodeAll(body)|), Test(test)] + EncodeAll(body)
    case Break => [BreakOp]
    case Continue => [ContinueOp]
    case Return(arg) => [ReturnOp, Arg(arg)]
  }

  function EncodeAll(ss: seq<Stmt>): Code {
    if ss == [] then [] else Encode(ss[0]) + EncodeAll(ss[1..])
  }
}
