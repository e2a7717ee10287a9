/** The compiler's running count of stack slots and its high-water mark. */
module Slots {
  import opened Syntax
  import opened Semantics
  import opened Bytes
  import opened Bytecode
  import opened CodeGen
  import opened SimulateExpr
  import opened SimulateStmt

  // How much the code of an expression changes the count. Both branches of a
  // conditional are counted, so this can exceed one.
  function NetExpr(e: Expr): (r: int)
    ensures r >= 1
  {
    match e
    case Lit(_) => 1
    case Variable(_) => 1
    case Assign(_, rhs) => NetExpr(rhs)
    case Unary(_, operand) => NetExpr(operand)
    case Binary(_, l, r) => NetExpr(l) + NetExpr(r) - 1
    case And(l, r) => NetExpr(l) - 1 + NetExpr(r)
    case Or(l, r) => NetExpr(l) - 1 + NetExpr(r)
    case Cond(c, y, n) => NetExpr(c) - 1 + NetExpr(y) + NetExpr(n)
    case Get(r, _) => NetExpr(r)
    case Set(r, _, rhs) => NetExpr(r) + NetExpr(rhs) - 1
  }

  // The highest the count gets in the code of an expression.
  function PeakExpr(e: Expr): (r: nat)
    ensures r >= NetExpr(e)
  {
    match e
    case Lit(_) => 1
    case Variable(_) => 1
    case Assign(_, rhs) => PeakExpr(rhs)
    case Unary(_, operand) => PeakExpr(operand)
    case Binary(_, l, r) => Max(PeakExpr(l), NetExpr(l) + PeakExpr(r))
    case And(l, r) => Max(PeakExpr(l), NetExpr(l) - 1 + PeakExpr(r))
    case Or(l, r) => Max(PeakExpr(l), NetExpr(l) - 1 + PeakExpr(r))
    case Cond(c, y, n) =>
      Max(PeakExpr(c), Max(NetExpr(c) - 1 + PeakExpr(y), NetExpr(c) - 1 + NetExpr(y) + PeakExpr(n)))
    case Get(r, _) => PeakExpr(r)
    case Set(r, _, rhs) => Max(PeakExpr(r), NetExpr(r) + PeakExpr(rhs))
  }

  // The count never falls behind the stack.
  lemma {:induction false} PeakOverHeight(e: Expr)
    ensures HeightExpr(e) <= PeakExpr(e)
  {
    match e
    case Lit(_) =>
    case Variable(_) =>
    case Assign(_, rhs) => PeakOverHeight(rhs);
    case Unary(_, operand) => PeakOverHeight(operand);
    case Binary(_, l, r) => PeakOverHeight(l); PeakOverHeight(r);
    case And(l, r) => PeakOverHeight(l); PeakOverHeight(r);
    case Or(l, r) => PeakOverHeight(l); PeakOverHeight(r);
    case Cond(c, y, n) => PeakOverHeight(c); PeakOverHeight(y); PeakOverHeight(n);
    case Get(r, _) => PeakOverHeight(r);
    case Set(r, _, rhs) => PeakOverHeight(r); PeakOverHeight(rhs);
  }

  function Conditionals(e: Expr): nat {
    match e
    case Lit(_) => 0
    case Variable(_) => 0
    case Assign(_, rhs) => Conditionals(rhs)
    case Unary(_, operand) => Conditionals(operand)
    case Binary(_, l, r) => Conditionals(l) + Conditionals(r)
    case And(l, r) => Conditionals(l) + Conditionals(r)
    case Or(l, r) => Conditionals(l) + Conditionals(r)
    case Cond(c, y, n) => 1 + Conditionals(c) + Conditionals(y) + Conditionals(n)
    case Get(r, _) => Conditionals(r)
    case Set(r, _, rhs) => Conditionals(r) + Conditionals(rhs)
  }

  // The count goes wrong by one for each ?: and by nothing else. Without one it is never
  // higher than the stack gets.
  lemma {:induction false} CountExact(e: Expr)
    ensures NetExpr(e) == 1 + Conditionals(e)
    ensures Conditionals(e) == 0 ==> PeakExpr(e) == HeightExpr(e)
  {
    match e
    case Lit(_) =>
    case Variable(_) =>
    case Assign(_, rhs) => CountExact(rhs);
    case Unary(_, operand) => CountExact(operand);
    case Binary(_, l, r) => CountExact(l); CountExact(r);
    case And(l, r) => CountExact(l); CountExact(r);
    case Or(l, r) => CountExact(l); CountExact(r);
    case Cond(c, y, n) => CountExact(c); CountExact(y); CountExact(n);
    case Get(r, _) => CountExact(r);
    case Set(r, _, rhs) => CountExact(r); CountExact(rhs);
  }

  // ----- Statements -----

  // The number of locals that [s] leaves in scope.
  function Added(names: seq<string>, s: Stmt): nat {
    |Declared(names, s)| - |names|
  }

  // How much the code of a statement changes the count. The value of a return
  // statement stays counted.
  function NetStmt(names: seq<string>, s: Stmt): (r: int)
    ensures r >= Added(names, s)
    decreases s
  {
    match s
    case Skip => 0
    case Seq(first, rest) => NetStmt(names, first) + NetStmt(Declared(names, first), rest)
    case Evaluate(e) => NetExpr(e) - 1
    case Declare(_, init) => NetExpr(init)
    case Block(body) => NetStmt(names, body) - Added(names, body)
    case IfThen(c, yes) => NetExpr(c) - 1 + NetStmt(names, yes)
    case IfElse(c, yes, no) => NetExpr(c) - 1 + NetStmt(names, yes) + NetStmt(names, no)
    case Loop(c, body) => NetExpr(c) - 1 + NetStmt(names, body)
    case ForIn(x, sequence, body) => NetExpr(sequence) + NetStmt(ForNames(names, x), body) - 1
    case BreakLoop => 0
    case ContinueLoop => 0
    case Give(e) => NetExpr(e)
  }

  // The highest the count gets in the code of a statement.
  function PeakStmt(names: seq<string>, s: Stmt): (r: nat)
    ensures r >= NetStmt(names, s)
    decreases s
  {
    match s
    case Skip => 0
    case Seq(first, rest) => Max(PeakStmt(names, first), NetStmt(names, first) + PeakStmt(Declared(names, first), rest))
    case Evaluate(e) => PeakExpr(e)
    case Declare(_, init) => PeakExpr(init)
    case Block(body) => PeakStmt(names, body)
    case IfThen(c, yes) => Max(PeakExpr(c), NetExpr(c) - 1 + PeakStmt(names, yes))
    case IfElse(c, yes, no) =>
      Max(PeakExpr(c), NetExpr(c) - 1 + Max(PeakStmt(names, yes), NetStmt(names, yes) + PeakStmt(names, no)))
    case Loop(c, body) => Max(PeakExpr(c), NetExpr(c) - 1 + PeakStmt(names, body))
    case ForIn(x, sequence, body) =>
      Max(PeakExpr(sequence), NetExpr(sequence) + Max(3, 2 + PeakStmt(ForNames(names, x), body)))
    case BreakLoop => 0
    case ContinueLoop => 0
    case Give(e) => PeakExpr(e)
  }

  lemma {:induction false} PeakOverHeightStmt(names: seq<string>, s: Stmt)
    ensures HeightStmt(names, s) <= PeakStmt(names, s)
    decreases s
  {
    match s
    case Skip =>
    case Seq(first, rest) =>
      PeakOverHeightStmt(names, first);
      PeakOverHeightStmt(Declared(names, first), rest);
    case Evaluate(e) => PeakOverHeight(e);
    case Declare(_, init) => PeakOverHeight(init);
    case Block(body) => PeakOverHeightStmt(names, body);
    case IfThen(c, yes) => PeakOverHeight(c); PeakOverHeightStmt(names, yes);
    case IfElse(c, yes, no) => PeakOverHeight(c); PeakOverHeightStmt(names, yes); PeakOverHeightStmt(names, no);
    case Loop(c, body) => PeakOverHeight(c); PeakOverHeightStmt(names, body);
    case ForIn(x, sequence, body) => PeakOverHeight(sequence); PeakOverHeightStmt(ForNames(names, x), body);
    case BreakLoop =>
    case ContinueLoop =>
    case Give(e) => PeakOverHeight(e);
  }

  // The conditionals of a statement, and its returns.
  function Miscounted(s: Stmt): nat {
    match s
    case Skip => 0
    case Seq(first, rest) => Miscounted(first) + Miscounted(rest)
    case Evaluate(e) => Conditionals(e)
    case Declare(_, init) => Conditionals(init)
    case Block(body) => Miscounted(body)
    case IfThen(c, yes) => Conditionals(c) + Miscounted(yes)
    case IfElse(c, yes, no) => Conditionals(c) + Miscounted(yes) + Miscounted(no)
    case Loop(c, body) => Conditionals(c) + Miscounted(body)
    case ForIn(_, sequence, body) => Conditionals(sequence) + Miscounted(body)
    case BreakLoop => 0
    case ContinueLoop => 0
    case Give(e) => 1 + Conditionals(e)
  }

  // In statements it goes wrong by one for each return too, and otherwise counts the
  // locals in scope.
  lemma {:induction false} CountExactStmt(names: seq<string>, s: Stmt)
    requires WellFormed(s)
    ensures NetStmt(names, s) == Added(names, s) + Miscounted(s)
    decreases s
  {
    match s
    case Skip =>
    case Seq(first, rest) =>
      CountExactStmt(names, first);
      CountExactStmt(Declared(names, first), rest);
    case Evaluate(e) => CountExact(e);
    case Declare(_, init) => CountExact(init);
    case Block(body) => CountExactStmt(names, body);
    case IfThen(c, yes) => CountExact(c); CountExactStmt(names, yes);
    case IfElse(c, yes, no) => CountExact(c); CountExactStmt(names, yes); CountExactStmt(names, no);
    case Loop(c, body) => CountExact(c); CountExactStmt(names, body);
    case ForIn(x, sequence, body) => CountExact(sequence); CountExactStmt(ForNames(names, x), body);
    case BreakLoop =>
    case ContinueLoop =>
    case Give(e) => CountExact(e);
  }

  // The high-water mark of a function: its count starts at one, for the receiver,
  // and a body of statements ends by loading the null it returns.
  function MaxSlots(names: seq<string>, body: Body): (r: nat)
    ensures r >= 1
  {
    match body
    case Result(e) => 1 + PeakExpr(e)
    case Statements(s) => Max(1 + PeakStmt(names, s), 1 + NetStmt(names, s) + 1)
  }
}
