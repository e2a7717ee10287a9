/** Direct evaluation of the syntax trees, with no reference to slots, bytecode or
    jumps. Method calls are an arbitrary function of the world and the arguments. */
module Semantics {
  import opened Syntax

  // Everything outside the locals of the running function: the module variables,
  // by name, and the state of the heap.
  datatype World = World(globals: map<string, Value>, heap: int)

  function Global(w: World, name: string): Value {
    if name in w.globals then w.globals[name] else Null
  }

  // A call returns a value or aborts the fiber; either way it may change the world.
  datatype CallResult = Returned(value: Value, world: World) | Raised(world: World)

  type Calls = (World, string, seq<Value>) -> CallResult

  // The locals in scope, oldest first. A later name shadows an earlier one.
  datatype Locals = Locals(names: seq<string>, values: seq<Value>)
  type Env = l: Locals | |l.names| == |l.values| witness Locals([], [])

  function Bind(env: Env, x: string, v: Value): Env {
    Locals(env.names + [x], env.values + [v])
  }

  // The position of the innermost local called [x], or -1.
  function Innermost(names: seq<string>, x: string): (r: int)
    ensures -1 <= r < |names|
    ensures r >= 0 ==> names[r] == x
    ensures forall i :: r < i < |names| ==> names[i] != x
  {
    if names == [] then -1
    else if names[|names| - 1] == x then |names| - 1
    else Innermost(names[..|names| - 1], x)
  }

  datatype ExprResult =
    | Value(env: Env, world: World, value: Value)
    | Abort(world: World)

  function EvalCall(calls: Calls, env: Env, w: World, name: string, args: seq<Value>): ExprResult {
    match calls(w, name, args)
    case Returned(v, w') => Value(env, w', v)
    case Raised(w') => Abort(w')
  }

  function BinaryName(op: BinaryOp): string {
    match op
    case DotDot => "..(_)"
    case DotDotDot => "...(_)"
    case Star => "*(_)"
    case Slash => "/(_)"
    case Percent => "%(_)"
    case Plus => "+(_)"
    case Minus => "-(_)"
    case LtLt => "<<(_)"
    case GtGt => ">>(_)"
    case Pipe => "|(_)"
    case Caret => "^(_)"
    case Amp => "&(_)"
    case Lt => "<(_)"
    case Gt => ">(_)"
    case LtEq => "<=(_)"
    case GtEq => ">=(_)"
    case EqEq => "==(_)"
    case BangEq => "!=(_)"
    case Is => "is(_)"
  }

  function UnaryName(uop: UnaryOp): string {
    match uop
    case Neg => "-"
    case Not => "!"
    case Complement => "~"
  }

  function SetterName(name: string): string {
    name + "=(_)"
  }

  function EvalExpr(calls: Calls, env: Env, w: World, e: Expr): (r: ExprResult)
    ensures r.Value? ==> r.env.names == env.names
    decreases e
  {
    match e
    case Lit(v) => Value(env, w, v)
    case Variable(x) =>
      var i := Innermost(env.names, x);
      Value(env, w, if i >= 0 then env.values[i] else Global(w, x))
    case Assign(x, rhs) =>
      var r := EvalExpr(calls, env, w, rhs);
      if r.Abort? then r else Store(r.env, r.world, x, r.value)
    case Unary(uop, operand) =>
      var r := EvalExpr(calls, env, w, operand);
      if r.Abort? then r else EvalCall(calls, r.env, r.world, UnaryName(uop), [r.value])
    case Binary(op, left, right) =>
      var l := EvalExpr(calls, env, w, left);
      if l.Abort? then l
      else
        var r := EvalExpr(calls, l.env, l.world, right);
        if r.Abort? then r else EvalCall(calls, r.env, r.world, BinaryName(op), [l.value, r.value])
    case And(left, right) =>
      var l := EvalExpr(calls, env, w, left);
      if l.Abort? || l.value.Falsy() then l else EvalExpr(calls, l.env, l.world, right)
    case Or(left, right) =>
      var l := EvalExpr(calls, env, w, left);
      if l.Abort? || !l.value.Falsy() then l else EvalExpr(calls, l.env, l.world, right)
    case Cond(test, yes, no) =>
      var c := EvalExpr(calls, env, w, test);
      if c.Abort? then c else EvalExpr(calls, c.env, c.world, if c.value.Falsy() then no else yes)
    case Get(receiver, name) =>
      var r := EvalExpr(calls, env, w, receiver);
      if r.Abort? then r else EvalCall(calls, r.env, r.world, name, [r.value])
    case Set(receiver, name, rhs) =>
      var r := EvalExpr(calls, env, w, receiver);
      if r.Abort? then r
      else
        var v := EvalExpr(calls, r.env, r.world, rhs);
        if v.Abort? then v else EvalCall(calls, v.env, v.world, SetterName(name), [r.value, v.value])
  }

  // The value of an assignment is the value assigned.
  function Store(env: Env, w: World, x: string, v: Value): (r: ExprResult)
    ensures r.Value? && r.env.names == env.names && r.value == v
  {
    var i := Innermost(env.names, x);
    if i >= 0 then Value(Locals(env.names, env.values[i := v]), w, v)
    else Value(env, w.(globals := w.globals[x := v]), v)
  }

  datatype Outcome =
    | Normal(env: Env, world: World)
    | Broke(env: Env, world: World)
    | Continued(env: Env, world: World)
    | Gave(value: Value, world: World)
    | Failed(world: World)
    | OutOfFuel

  // The names in scope after a statement.
  function Declared(names: seq<string>, s: Stmt): (r: seq<string>)
    ensures names <= r
    decreases s
  {
    match s
    case Seq(first, rest) => Declared(Declared(names, first), rest)
    case Declare(x, _) => names + [x]
    case _ => names
  }

  predicate InScope(names: seq<string>, s: Stmt, o: Outcome) {
    match o
    case Normal(env, _) => env.names == Declared(names, s)
    case Broke(env, _) => names <= env.names
    case Continued(env, _) => names <= env.names
    case _ => true
  }

  // The hidden locals of a for statement, whose names no program can write.
  const SEQ_LOCAL := "seq "
  const ITER_LOCAL := "iter "
  const ITERATE := "iterate(_)"
  const ITERATOR_VALUE := "iteratorValue(_)"

  // The env cut back to its oldest [n] locals.
  function Cut(env: Env, n: nat): Env {
    if n <= |env.names| then Locals(env.names[..n], env.values[..n]) else env
  }

  // Leaves the scopes entered since there were [n] locals.
  function Leave(n: nat, o: Outcome): Outcome {
    match o
    case Normal(env, w) => Normal(Cut(env, n), w)
    case _ => o
  }

  // [fuel] bounds the number of iterations of each loop.
  function EvalStmt(calls: Calls, fuel: nat, env: Env, w: World, s: Stmt): (o: Outcome)
    requires WellFormed(s)
    ensures InScope(env.names, s, o)
    decreases fuel, s, 0
  {
    match s
    case Skip => Normal(env, w)
    case Seq(first, rest) =>
      var o := EvalStmt(calls, fuel, env, w, first);
      if o.Normal? then EvalStmt(calls, fuel, o.env, o.world, rest) else o
    case Evaluate(e) =>
      var r := EvalExpr(calls, env, w, e);
      if r.Abort? then Failed(r.world) else Normal(r.env, r.world)
    case Declare(x, init) =>
      var r := EvalExpr(calls, env, w, init);
      if r.Abort? then Failed(r.world)
      else Normal(Bind(r.env, x, r.value), r.world)
    case Block(body) => Leave(|env.names|, EvalStmt(calls, fuel, env, w, body))
    case IfThen(c, yes) =>
      var r := EvalExpr(calls, env, w, c);
      if r.Abort? then Failed(r.world)
      else if r.value.Falsy() then Normal(r.env, r.world)
      else EvalStmt(calls, fuel, r.env, r.world, yes)
    case IfElse(c, yes, no) =>
      var r := EvalExpr(calls, env, w, c);
      if r.Abort? then Failed(r.world)
      else if r.value.Falsy() then EvalStmt(calls, fuel, r.env, r.world, no)
      else EvalStmt(calls, fuel, r.env, r.world, yes)
    case Loop(c, body) => EvalLoop(calls, fuel, env, w, c, body)
    case ForIn(x, sequence, body) =>
      var r := EvalExpr(calls, env, w, sequence);
      if r.Abort? then Failed(r.world)
      else Leave(|env.names|, EvalFor(calls, fuel, Hidden(r.env, r.value), r.world, x, body))
    case BreakLoop => Broke(env, w)
    case ContinueLoop => Continued(env, w)
    case Give(e) =>
      var r := EvalExpr(calls, env, w, e);
      if r.Abort? then Failed(r.world) else Gave(r.value, r.world)
  }

  // The hidden locals of a for statement over [sequence], before it starts.
  function Hidden(env: Env, sequence: Value): Env {
    Bind(Bind(env, SEQ_LOCAL, sequence), ITER_LOCAL, Null)
  }

  function EvalLoop(calls: Calls, fuel: nat, env: Env, w: World, c: Expr, body: Stmt): (o: Outcome)
    requires IsStatement(body) && WellFormed(body)
    ensures !o.Broke? && !o.Continued?
    ensures o.Normal? ==> o.env.names == env.names
    decreases fuel, body, 1
  {
    if fuel == 0 then OutOfFuel
    else
      var r := EvalExpr(calls, env, w, c);
      if r.Abort? then Failed(r.world)
      else if r.value.Falsy() then Normal(r.env, r.world)
      else
        match EvalStmt(calls, fuel, r.env, r.world, body)
        case Normal(env', w') => EvalLoop(calls, fuel - 1, env', w', c, body)
        case Continued(env', w') => EvalLoop(calls, fuel - 1, Cut(env', |env.names|), w', c, body)
        case Broke(env', w') => Normal(Cut(env', |env.names|), w')
        case o => o
  }

  // The rest of a for statement whose hidden locals are the last two of [env].
  function EvalFor(calls: Calls, fuel: nat, env: Env, w: World, x: string, body: Stmt): (o: Outcome)
    requires IsStatement(body) && WellFormed(body)
    requires |env.names| >= 2
    ensures !o.Broke? && !o.Continued?
    ensures o.Normal? ==> o.env.names == env.names
    decreases fuel, body, 1
  {
    var n := |env.names|;
    if fuel == 0 then OutOfFuel
    else
      match calls(w, ITERATE, [env.values[n - 2], env.values[n - 1]])
      case Raised(w1) => Failed(w1)
      case Returned(iter, w1) =>
        var env1 := Locals(env.names, env.values[n - 1 := iter]);
        if iter.Falsy() then Normal(env1, w1)
        else
          match calls(w1, ITERATOR_VALUE, [env.values[n - 2], iter])
          case Raised(w2) => Failed(w2)
          case Returned(item, w2) =>
            match EvalStmt(calls, fuel, Bind(env1, x, item), w2, body)
            case Normal(env', w') => EvalFor(calls, fuel - 1, Cut(env', n), w', x, body)
            case Continued(env', w') => EvalFor(calls, fuel - 1, Cut(env', n), w', x, body)
            case Broke(env', w') => Normal(Cut(env', n), w')
            case o => o
  }
}
