/** The height of the stack at each instruction of a compiled function, which is the same
    on every path, and the compiler's count of slots there. */
module Heights {
  import opened Syntax
  import opened Semantics
  import opened Bytes
  import opened Bytecode
  import opened CodeGen
  import opened Interpreter
  import opened SimulateExpr
  import opened SimulateStmt
  import opened Slots
  import opened Correctness

  // What is known of each byte of the code: an instruction that starts there finds
  // [height] values on the stack, and was emitted when the count was [slots].
  datatype Level = Operand | Start(height: int, slots: int)

  function Rest(n: nat): (r: seq<Level>)
    ensures |r| == n
  {
    if n == 0 then [] else [Operand] + Rest(n - 1)
  }

  // One instruction of [n] bytes.
  function Mark(n: nat, h: int, slots: int): (r: seq<Level>)
    ensures r != [] && r[0] == Start(h, slots) && (n > 0 ==> |r| == n)
  {
    [Start(h, slots)] + Rest(if n == 0 then 0 else n - 1)
  }

  // The levels of an expression that starts at height [h] and count [n].
  function LevelsExpr(names: seq<string>, e: Expr, h: int, n: int): seq<Level> {
    match e
    case Lit(v) => Mark(SizeExpr(names, e), h, n)
    case Variable(x) => Mark(SizeLoad(names, x), h, n)
    case Assign(x, rhs) =>
      LevelsExpr(names, rhs, h, n) + Mark(if Innermost(names, x) >= 0 then 2 else 3, h + 1, n + NetExpr(rhs))
    case Unary(_, a) => LevelsExpr(names, a, h, n) + Mark(3, h + 1, n + NetExpr(a))
    case Get(a, _) => LevelsExpr(names, a, h, n) + Mark(3, h + 1, n + NetExpr(a))
    case Binary(_, a, b) =>
      LevelsExpr(names, a, h, n) + LevelsExpr(names, b, h + 1, n + NetExpr(a))
          + Mark(3, h + 2, n + NetExpr(a) + NetExpr(b))
    case Set(a, _, b) =>
      LevelsExpr(names, a, h, n) + LevelsExpr(names, b, h + 1, n + NetExpr(a))
          + Mark(3, h + 2, n + NetExpr(a) + NetExpr(b))
    case And(a, b) =>
      LevelsExpr(names, a, h, n) + Mark(3, h + 1, n + NetExpr(a)) + LevelsExpr(names, b, h, n + NetExpr(a) - 1)
    case Or(a, b) =>
      LevelsExpr(names, a, h, n) + Mark(3, h + 1, n + NetExpr(a)) + LevelsExpr(names, b, h, n + NetExpr(a) - 1)
    case Cond(c, y, z) =>
      LevelsExpr(names, c, h, n) + Mark(3, h + 1, n + NetExpr(c)) + LevelsExpr(names, y, h, n + NetExpr(c) - 1)
      + Mark(3, h + 1, n + NetExpr(c) - 1 + NetExpr(y)) + LevelsExpr(names, z, h, n + NetExpr(c) - 1 + NetExpr(y))
  }

  // Pops for locals, which do not change the count.
  function LevelsPops(k: int, h: int, n: int): (r: seq<Level>)
    ensures |r| == if k < 0 then 0 else k
  {
    if k <= 0 then [] else Mark(1, h, n) + LevelsPops(k - 1, h - 1, n)
  }

  // The levels of a statement that starts at count [n], and at the height of its locals.
  function LevelsStmt(names: seq<string>, kept: nat, s: Stmt, n: int): seq<Level>
    decreases s, 0
  {
    match s
    case Skip => []
    case Seq(a, b) => LevelsStmt(names, kept, a, n) + LevelsStmt(Declared(names, a), kept, b, n + NetStmt(names, a))
    case Evaluate(e) => LevelsExpr(names, e, |names|, n) + Mark(1, |names| + 1, n + NetExpr(e))
    case Declare(_, init) => LevelsExpr(names, init, |names|, n)
    case Block(body) => LevelsBlock(names, kept, body, n)
    case IfThen(c, yes) => LevelsTest(names, c, n) + LevelsStmt(names, kept, yes, n + NetExpr(c) - 1)
    case IfElse(c, yes, no) => LevelsTest(names, c, n) + LevelsBranches(names, kept, c, yes, no, n + NetExpr(c) - 1)
    case Loop(c, body) => LevelsTest(names, c, n) + LevelsBody(names, body, n + NetExpr(c) - 1)
    case ForIn(x, sequence, body) =>
      LevelsExpr(names, sequence, |names|, n) + Mark(1, |names| + 1, n + NetExpr(sequence))
      + LevelsFor(names, x, body, n + NetExpr(sequence) + 1)
      + LevelsPops(2, |names| + 2, n + NetExpr(sequence) + 1 + NetStmt(ForNames(names, x), body))
    case BreakLoop => LevelsEscape(|names|, kept, n)
    case ContinueLoop => LevelsEscape(|names|, kept, n)
    case Give(e) => LevelsExpr(names, e, |names|, n) + Mark(1, |names| + 1, n + NetExpr(e))
  }

  // A condition, and the jump that it decides.
  function LevelsTest(names: seq<string>, c: Expr, n: int): seq<Level> {
    LevelsExpr(names, c, |names|, n) + Mark(3, |names| + 1, n + NetExpr(c))
  }

  // A jump out of the loop, or to its start.
  function LevelsEscape(h: nat, kept: nat, n: int): (r: seq<Level>)
    ensures |r| == |Pops(h - kept)| + 3
  {
    LevelsPops(h - kept, h, n) + Mark(3, h - |Pops(h - kept)|, n)
  }

  function LevelsBlock(names: seq<string>, kept: nat, body: Stmt, n: int): seq<Level>
    decreases body, 1
  {
    LevelsStmt(names, kept, body, n)
        + LevelsPops(|Declared(names, body)| - |names|, |Declared(names, body)|, n + NetStmt(names, body))
  }

  function LevelsBranches(names: seq<string>, kept: nat, c: Expr, yes: Stmt, no: Stmt, n: int): seq<Level>
    decreases IfElse(c, yes, no), 0, 0
  {
    LevelsStmt(names, kept, yes, n) + Mark(3, |names|, n + NetStmt(names, yes))
        + LevelsStmt(names, kept, no, n + NetStmt(names, yes))
  }

  function LevelsBody(names: seq<string>, body: Stmt, n: int): seq<Level>
    decreases body, 1
  {
    LevelsStmt(names, |names|, body, n) + Mark(3, |names|, n + NetStmt(names, body))
  }

  // The loop of a for statement.
  function LevelsFor(names: seq<string>, x: string, body: Stmt, n: int): seq<Level>
    decreases body, 1
  {
    var h, net := |names| + 2, NetStmt(ForNames(names, x), body);
    LevelsLoads(|names|, h, n) + Mark(2, h + 1, n + 1) + Mark(3, h + 1, n + 1) + LevelsLoads(|names|, h, n)
    + LevelsStmt(ForNames(names, x), h, body, n + 1) + Mark(1, h + 1, n + 1 + net) + Mark(3, h, n + net)
  }

  // A call on the two hidden locals.
  function LevelsLoads(k: nat, h: int, n: int): (r: seq<Level>)
    ensures |r| == |GenLoadLocal(k)| + |GenLoadLocal(k + 1)| + 3 && r[0] == Start(h, n)
  {
    Mark(|GenLoadLocal(k)|, h, n) + Mark(|GenLoadLocal(k + 1)|, h + 1, n + 1) + Mark(3, h + 2, n + 2)
  }

  // The levels of a whole function.
  function Levels(names: seq<string>, body: Body): seq<Level> {
    match body
    case Result(e) =>
      LevelsExpr(names, e, |names|, 1) + Mark(1, |names| + 1, 1 + NetExpr(e)) + Mark(1, |names| + 1, 1 + NetExpr(e))
    case Statements(s) =>
      var h, n := |Declared(names, s)|, 1 + NetStmt(names, s);
      LevelsStmt(names, 0, s, 1) + Mark(1, h, n) + Mark(1, h + 1, n + 1) + Mark(1, h + 1, n + 1)
  }

  // ----- Sizes -----

  ghost predicate Sized(names: seq<string>, e: Expr, h: int, n: int) {
    var r := LevelsExpr(names, e, h, n);
    |r| == SizeExpr(names, e) && r != [] && r[0] == Start(h, n)
  }

  lemma LevelsExprSize(names: seq<string>, e: Expr, h: int, n: int)
    ensures var r := LevelsExpr(names, e, h, n); |r| == SizeExpr(names, e) && r != [] && r[0] == Start(h, n)
  {
    SizedExpr(names, e, h, n);
  }

  lemma {:induction false} SizedExpr(names: seq<string>, e: Expr, h: int, n: int)
    ensures Sized(names, e, h, n)
    decreases e
  {
    hide Sized, NetExpr;
    match e
    case Lit(v) => LeafSize(names, e, h, n);
    case Variable(x) => LeafSize(names, e, h, n);
    case Assign(x, rhs) =>
      SizedExpr(names, rhs, h, n);
      AssignSize(names, x, rhs, h, n);
    case Unary(_, a) =>
      SizedExpr(names, a, h, n);
      Call1Size(names, e, a, UnaryName(e.uop), h, n);
    case Get(a, name) =>
      SizedExpr(names, a, h, n);
      Call1Size(names, e, a, name, h, n);
    case Binary(_, a, b) =>
      SizedExpr(names, a, h, n);
      SizedExpr(names, b, h + 1, n + NetExpr(a));
      Call2Size(names, e, a, b, BinaryName(e.op), h, n);
    case Set(a, name, b) =>
      SizedExpr(names, a, h, n);
      SizedExpr(names, b, h + 1, n + NetExpr(a));
      Call2Size(names, e, a, b, SetterName(name), h, n);
    case And(a, b) =>
      SizedExpr(names, a, h, n);
      SizedExpr(names, b, h, n + NetExpr(a) - 1);
      LogicalSize(names, e, CODE_AND, a, b, h, n);
    case Or(a, b) =>
      SizedExpr(names, a, h, n);
      SizedExpr(names, b, h, n + NetExpr(a) - 1);
      LogicalSize(names, e, CODE_OR, a, b, h, n);
    case Cond(c, y, z) =>
      SizedExpr(names, c, h, n);
      SizedExpr(names, y, h, n + NetExpr(c) - 1);
      SizedExpr(names, z, h, n + NetExpr(c) - 1 + NetExpr(y));
      CondSize(names, c, y, z, h, n);
  }

  lemma LeafSize(names: seq<string>, e: Expr, h: int, n: int)
    requires e.Lit? || e.Variable?
    ensures Sized(names, e, h, n)
  {
    hide Mark, Innermost;
  }

  lemma AssignSize(names: seq<string>, x: string, rhs: Expr, h: int, n: int)
    requires Sized(names, rhs, h, n)
    ensures Sized(names, Assign(x, rhs), h, n)
  {
    hide Mark, NetExpr, Innermost;
  }

  lemma Call1Size(names: seq<string>, e: Expr, a: Expr, name: string, h: int, n: int)
    requires IsCall1(e, a, name) && Sized(names, a, h, n)
    ensures Sized(names, e, h, n)
  {
    hide Mark, NetExpr, LevelsExpr;
    Call1Levels(names, e, a, name, h, n);
  }

  lemma Call2Size(names: seq<string>, e: Expr, a: Expr, b: Expr, name: string, h: int, n: int)
    requires IsCall2(e, a, b, name) && Sized(names, a, h, n) && Sized(names, b, h + 1, n + NetExpr(a))
    ensures Sized(names, e, h, n)
  {
    hide Mark, NetExpr, LevelsExpr;
    Call2Levels(names, e, a, b, name, h, n);
  }

  lemma LogicalSize(names: seq<string>, e: Expr, op: byte, a: Expr, b: Expr, h: int, n: int)
    requires IsLogical(e, op, a, b) && Sized(names, a, h, n) && Sized(names, b, h, n + NetExpr(a) - 1)
    ensures Sized(names, e, h, n)
  {
    hide Mark, NetExpr, LevelsExpr;
    LogicalLevels(names, e, op, a, b, h, n);
  }

  lemma CondSize(names: seq<string>, c: Expr, y: Expr, z: Expr, h: int, n: int)
    requires Sized(names, c, h, n) && Sized(names, y, h, n + NetExpr(c) - 1)
             && Sized(names, z, h, n + NetExpr(c) - 1 + NetExpr(y))
    ensures Sized(names, Cond(c, y, z), h, n)
  {
    hide Mark, NetExpr, LevelsExpr;
    CondLevels(names, c, y, z, h, n);
  }

  lemma LevelsTestSize(names: seq<string>, c: Expr, n: int)
    ensures var r := LevelsTest(names, c, n); |r| == SizeExpr(names, c) + 3 && r[0] == Start(|names|, n)
  {
    LevelsExprSize(names, c, |names|, n);
  }

  lemma {:induction false} LevelsSize(names: seq<string>, kept: nat, s: Stmt, n: int)
    ensures |LevelsStmt(names, kept, s, n)| == SizeStmt(names, kept, s)
    decreases s, 1
  {
    hide SizeExpr, NetExpr, NetStmt, LevelsExpr, LevelsTest, LevelsEscape, Declared, Pops, Mark, ForNames, SizeForLoop,
         LevelsFor, LevelsBlock, LevelsBranches, LevelsBody, LevelsPops;
    match s
    case Skip =>
    case Seq(a, b) =>
      LevelsSize(names, kept, a, n);
      LevelsSize(Declared(names, a), kept, b, n + NetStmt(names, a));
    case Evaluate(e) => LevelsExprSize(names, e, |names|, n);
    case Declare(_, e) => LevelsExprSize(names, e, |names|, n);
    case Give(e) => LevelsExprSize(names, e, |names|, n);
    case Block(body) =>
      LevelsSize(names, kept, body, n);
      BlockForm(names, kept, body, n);
    case IfThen(c, yes) =>
      LevelsTestSize(names, c, n);
      LevelsSize(names, kept, yes, n + NetExpr(c) - 1);
    case IfElse(c, yes, no) =>
      LevelsTestSize(names, c, n);
      LevelsSize(names, kept, yes, n + NetExpr(c) - 1);
      LevelsSize(names, kept, no, n + NetExpr(c) - 1 + NetStmt(names, yes));
      BranchesForm(names, kept, c, yes, no, n + NetExpr(c) - 1);
    case Loop(c, body) =>
      LevelsTestSize(names, c, n);
      LevelsSize(names, |names|, body, n + NetExpr(c) - 1);
      BodyForm(names, body, n + NetExpr(c) - 1);
    case ForIn(x, sequence, body) =>
      LevelsExprSize(names, sequence, |names|, n);
      LevelsForSize(names, x, body, n + NetExpr(sequence) + 1);
    case BreakLoop =>
    case ContinueLoop =>
  }

  lemma {:induction false} LevelsForSize(names: seq<string>, x: string, body: Stmt, n: int)
    ensures |LevelsFor(names, x, body, n)| == SizeForLoop(names, x, body)
    decreases body, 2
  {
    LevelsSize(ForNames(names, x), |names| + 2, body, n + 1);
  }

  // ----- What each instruction does to the height -----

  function HeightAt(ls: seq<Level>, i: int): int {
    if 0 <= i < |ls| && ls[i].Start? then ls[i].height else -1
  }

  // The instruction at [i] leads to instructions that expect the height it leaves.
  predicate Fits(code: seq<byte>, ls: seq<Level>, i: nat) {
    i < |code| &&
    var op, h, next := code[i], HeightAt(ls, i), i + 1 + FixedOperands(code[i]);
    next <= |code| &&
    if op == CODE_RETURN || op == CODE_END then true
    else if CODE_JUMP <= op <= CODE_OR then
      var d := ReadShort(code, i + 1);
      if op == CODE_JUMP then HeightAt(ls, next + d) == h
      else if op == CODE_LOOP then HeightAt(ls, next - d) == h
      else HeightAt(ls, next) == h - 1 && HeightAt(ls, next + d) == if op == CODE_JUMP_IF then h - 1 else h
    else HeightAt(ls, next) == h + StackEffect(op)
  }

  ghost predicate AllFit(code: seq<byte>, ls: seq<Level>, a: nat, b: nat) {
    forall i :: a <= i < b && i < |ls| && ls[i].Start? ==> Fits(code, ls, i)
  }

  // One step goes from the height of an instruction to the height of the next one.
  lemma StepFits(m: Machine, ls: seq<Level>, s: State)
    requires AllFit(m.code, ls, 0, |ls|) && HeightAt(ls, s.ip) == |s.stack| && Step(m, s).Next?
    ensures var t := Step(m, s).state; HeightAt(ls, t.ip) == |t.stack|
  {
    assert Fits(m.code, ls, s.ip);
    var op := m.code[s.ip];
    if op == CODE_NULL || op == CODE_FALSE || op == CODE_TRUE || CODE_LOAD_LOCAL_0 <= op <= CODE_LOAD_LOCAL_8
        || op == CODE_POP {
    } else if FixedOperands(op) == 1 {
    } else {
      StepShortFits(m, ls, s);
    }
  }

  lemma StepShortFits(m: Machine, ls: seq<Level>, s: State)
    requires s.ip + 3 <= |m.code| && FixedOperands(m.code[s.ip]) == 2 && Fits(m.code, ls, s.ip)
             && HeightAt(ls, s.ip) == |s.stack|
    requires StepShort(m, s, m.code[s.ip], ReadShort(m.code, s.ip + 1)).Next?
    ensures var t := StepShort(m, s, m.code[s.ip], ReadShort(m.code, s.ip + 1)).state; HeightAt(ls, t.ip) == |t.stack|
  {
  }

  // At every state that is reached, the height is that of the instruction.
  lemma {:induction false} ReachFits(m: Machine, ls: seq<Level>, s: State, k: nat, s': State, bound: nat)
    requires AllFit(m.code, ls, 0, |ls|) && HeightAt(ls, s.ip) == |s.stack| && Reach(m, s, k, s', bound)
    ensures HeightAt(ls, s'.ip) == |s'.stack|
    decreases k
  {
    hide Step, AllFit, HeightAt;
    if k > 0 {
      StepFits(m, ls, s);
      ReachFits(m, ls, Step(m, s).state, k - 1, s', bound);
    }
  }

  // ----- Levels at an offset -----

  predicate Holds(ls: seq<Level>, at: nat, part: seq<Level>) {
    at + |part| <= |ls| && ls[at..at + |part|] == part
  }

  lemma HoldsConcat(ls: seq<Level>, at: nat, a: seq<Level>, b: seq<Level>)
    requires Holds(ls, at, a + b)
    ensures Holds(ls, at, a) && Holds(ls, at + |a|, b)
  {
    assert ls[at..at + |a|] == ls[at..at + |a + b|][..|a|];
    assert ls[at + |a|..at + |a| + |b|] == ls[at..at + |a + b|][|a|..];
  }

  lemma HoldsConcat3(ls: seq<Level>, at: nat, a: seq<Level>, b: seq<Level>, c: seq<Level>)
    requires Holds(ls, at, a + b + c)
    ensures Holds(ls, at, a) && Holds(ls, at + |a|, b) && Holds(ls, at + |a| + |b|, c)
  {
    hide Holds;
    HoldsConcat(ls, at, a + b, c);
    HoldsConcat(ls, at, a, b);
  }

  lemma HoldsFirst(ls: seq<Level>, at: nat, part: seq<Level>, h: int, n: int)
    requires Holds(ls, at, part) && part != [] && part[0] == Start(h, n)
    ensures HeightAt(ls, at) == h
  {
    assert ls[at] == ls[at..at + |part|][0];
  }

  lemma {:induction false} RestOperands(n: nat, i: nat)
    requires i < n
    ensures Rest(n)[i] == Operand
  {
    if i > 0 { RestOperands(n - 1, i - 1); }
  }

  // An instruction that fits is all of its bytes.
  lemma MarkFits(code: seq<byte>, ls: seq<Level>, at: nat, n: nat, h: int, slots: int)
    requires Holds(ls, at, Mark(n, h, slots)) && n > 0 && Fits(code, ls, at)
    ensures AllFit(code, ls, at, at + n) && HeightAt(ls, at) == h
  {
    hide Fits;
    var part := Mark(n, h, slots);
    HoldsFirst(ls, at, part, h, slots);
    forall i | at < i < at + n ensures ls[i] == Operand {
      RestOperands(n - 1, i - at - 1);
      assert ls[i] == ls[at..at + n][i - at];
    }
  }

  lemma FitJoin(code: seq<byte>, ls: seq<Level>, a: nat, b: nat, c: nat)
    requires AllFit(code, ls, a, b) && AllFit(code, ls, b, c)
    ensures AllFit(code, ls, a, c)
  {
    hide Fits;
  }

  lemma NothingFits(code: seq<byte>, ls: seq<Level>, a: nat)
    ensures AllFit(code, ls, a, a)
  {
  }

  // ----- Single instructions -----

  // An instruction that goes on to the next one.
  lemma PlainFits(code: seq<byte>, ls: seq<Level>, at: nat, part: seq<byte>, h: int, n: int)
    requires At(code, at, part) && part != [] && |part| == 1 + FixedOperands(part[0])
    requires !(CODE_JUMP <= part[0] <= CODE_OR) && part[0] != CODE_RETURN && part[0] != CODE_END
    requires Holds(ls, at, Mark(|part|, h, n)) && HeightAt(ls, at + |part|) == h + StackEffect(part[0])
    ensures AllFit(code, ls, at, at + |part|) && HeightAt(ls, at) == h
  {
    AtByte(code, at, part, 0);
    HoldsFirst(ls, at, Mark(|part|, h, n), h, n);
    MarkFits(code, ls, at, |part|, h, n);
  }

  lemma JumpFits(code: seq<byte>, ls: seq<Level>, at: nat, op: byte, d: nat, h: int, n: int)
    requires At(code, at, GenJump(op, d)) && CODE_JUMP <= op <= CODE_OR && d < 0x1_0000
    requires Holds(ls, at, Mark(3, h, n))
    requires op == CODE_JUMP ==> HeightAt(ls, at + 3 + d) == h
    requires op == CODE_LOOP ==> HeightAt(ls, at + 3 - d) == h
    requires op == CODE_JUMP_IF ==> HeightAt(ls, at + 3) == HeightAt(ls, at + 3 + d) == h - 1
    requires op == CODE_AND || op == CODE_OR ==> HeightAt(ls, at + 3) == h - 1 && HeightAt(ls, at + 3 + d) == h
    ensures AllFit(code, ls, at, at + 3) && HeightAt(ls, at) == h
  {
    var part := GenJump(op, d);
    AtByte(code, at, part, 0);
    AtByte(code, at, part, 1);
    AtByte(code, at, part, 2);
    HoldsFirst(ls, at, Mark(3, h, n), h, n);
    assert ReadShort(code, at + 1) == d;
    MarkFits(code, ls, at, 3, h, n);
  }

  lemma EndFits(code: seq<byte>, ls: seq<Level>, at: nat, op: byte, h: int, n: int)
    requires At(code, at, [op]) && (op == CODE_RETURN || op == CODE_END) && Holds(ls, at, Mark(1, h, n))
    ensures AllFit(code, ls, at, at + 1) && HeightAt(ls, at) == h
  {
    AtByte(code, at, [op], 0);
    HoldsFirst(ls, at, Mark(1, h, n), h, n);
    MarkFits(code, ls, at, 1, h, n);
  }

  // ----- Expressions -----

  ghost function AnyEnv(names: seq<string>): (env: Env)
    ensures env.names == names
  {
    Locals(names, seq(|names|, _ => Null))
  }

  ghost function AnyValues(n: nat): (s: seq<Value>)
    ensures |s| == n
  {
    seq(n, _ => Null)
  }

  const SOME_WORLD := World(map[], 0)

  // Where an expression starts, and the height it expects and leaves.
  ghost predicate Placed(
      m: Machine, names: seq<string>, at: nat, e: Expr, temps: nat, bound: nat, ls: seq<Level>, n: int)
  {
    && Ready(m, names, at, e, temps, bound) && Holds(ls, at, LevelsExpr(names, e, |names| + temps, n))
    && HeightAt(ls, at + SizeExpr(names, e)) == |names| + temps + 1
  }

  lemma PlacedParts(m: Machine, names: seq<string>, at: nat, e: Expr, temps: nat, bound: nat, ls: seq<Level>, n: int)
    ensures Placed(m, names, at, e, temps, bound, ls, n)
            <==> Ready(m, names, at, e, temps, bound) && Holds(ls, at, LevelsExpr(names, e, |names| + temps, n))
                 && HeightAt(ls, at + SizeExpr(names, e)) == |names| + temps + 1
  {
    hide Ready, Holds, LevelsExpr, HeightAt, SizeExpr;
  }

  lemma {:induction false} ExprFits(
      m: Machine, names: seq<string>, at: nat, e: Expr, temps: nat, bound: nat, ls: seq<Level>, n: int)
    requires Placed(m, names, at, e, temps, bound, ls, n)
    ensures AllFit(m.code, ls, at, at + SizeExpr(names, e)) && HeightAt(ls, at) == |names| + temps
    decreases e, 1
  {
    hide Placed, AllFit, HeightAt, SizeExpr, BinaryName, UnaryName, SetterName;
    match e
    case Lit(v) => LitFits(m, names, at, v, temps, bound, ls, n);
    case Variable(x) => VariableFits(m, names, at, x, temps, bound, ls, n);
    case Assign(x, rhs) => AssignFits(m, names, at, x, rhs, temps, bound, ls, n);
    case Unary(uop, a) => Call1Fits(m, names, at, e, a, UnaryName(uop), temps, bound, ls, n);
    case Get(a, name) => Call1Fits(m, names, at, e, a, name, temps, bound, ls, n);
    case Binary(op, a, b) => Call2Fits(m, names, at, e, a, b, BinaryName(op), temps, bound, ls, n);
    case Set(a, name, b) => Call2Fits(m, names, at, e, a, b, SetterName(name), temps, bound, ls, n);
    case And(a, b) => LogicalFits(m, names, at, e, CODE_AND, a, b, temps, bound, ls, n);
    case Or(a, b) => LogicalFits(m, names, at, e, CODE_OR, a, b, temps, bound, ls, n);
    case Cond(c, y, z) => CondFits(m, names, at, c, y, z, temps, bound, ls, n);
  }

  lemma LitFits(m: Machine, names: seq<string>, at: nat, v: Value, temps: nat, bound: nat, ls: seq<Level>, n: int)
    requires Placed(m, names, at, Lit(v), temps, bound, ls, n)
    ensures AllFit(m.code, ls, at, at + SizeExpr(names, Lit(v))) && HeightAt(ls, at) == |names| + temps
  {
    hide At, Holds, HeightAt, AllFit, Mark;
    PlainFits(m.code, ls, at, GenLiteral(m.tables, v), |names| + temps, n);
  }

  lemma VariableFits(m: Machine, names: seq<string>, at: nat, x: string, temps: nat, bound: nat, ls: seq<Level>, n: int)
    requires Placed(m, names, at, Variable(x), temps, bound, ls, n)
    ensures AllFit(m.code, ls, at, at + SizeExpr(names, Variable(x))) && HeightAt(ls, at) == |names| + temps
  {
    hide *;
    PlacedParts(m, names, at, Variable(x), temps, bound, ls, n);
    VariableForm(m, names, at, x, temps, bound, n);
    LoadKind(m.tables, names, x);
    PlainFits(m.code, ls, at, GenLoad(m.tables, names, x), |names| + temps, n);
  }

  lemma VariableForm(m: Machine, names: seq<string>, at: nat, x: string, temps: nat, bound: nat, n: int)
    requires Ready(m, names, at, Variable(x), temps, bound)
    ensures At(m.code, at, GenLoad(m.tables, names, x)) && |GenLoad(m.tables, names, x)| == SizeExpr(names, Variable(x))
    ensures LevelsExpr(names, Variable(x), |names| + temps, n)
            == Mark(|GenLoad(m.tables, names, x)|, |names| + temps, n)
  {
    hide At, Mark;
  }

  lemma LoadKind(t: Tables, names: seq<string>, x: string)
    ensures forall part :: part == GenLoad(t, names, x) || part == GenStore(t, names, x) ==>
              part != [] && |part| == 1 + FixedOperands(part[0]) && part[0] < CODE_POP
    ensures StackEffect(GenLoad(t, names, x)[0]) == 1 && StackEffect(GenStore(t, names, x)[0]) == 0
    ensures CODE_POP < CODE_JUMP < CODE_OR < CODE_RETURN < CODE_END
  {
  }

  lemma {:induction false} AssignFits(
      m: Machine, names: seq<string>, at: nat, x: string, rhs: Expr, temps: nat, bound: nat, ls: seq<Level>, n: int)
    requires Placed(m, names, at, Assign(x, rhs), temps, bound, ls, n)
    ensures AllFit(m.code, ls, at, at + SizeExpr(names, Assign(x, rhs))) && HeightAt(ls, at) == |names| + temps
    decreases rhs, 2
  {
    hide *;
    var h, at1, store := |names| + temps, at + SizeExpr(names, rhs), GenStore(m.tables, names, x);
    PlacedParts(m, names, at, Assign(x, rhs), temps, bound, ls, n);
    AssignForm(m, AnyEnv(names), SOME_WORLD, at, x, rhs, AnyValues(temps), bound);
    LevelsExprSize(names, rhs, h, n);
    AssignLevels(m.tables, names, x, rhs, h, n);
    HoldsConcat(ls, at, LevelsExpr(names, rhs, h, n), Mark(|store|, h + 1, n + NetExpr(rhs)));
    LoadKind(m.tables, names, x);
    PlainFits(m.code, ls, at1, store, h + 1, n + NetExpr(rhs));
    PlacedParts(m, names, at, rhs, temps, bound, ls, n);
    ExprFits(m, names, at, rhs, temps, bound, ls, n);
    FitJoin(m.code, ls, at, at1, at1 + |store|);
  }

  lemma AssignLevels(t: Tables, names: seq<string>, x: string, rhs: Expr, h: int, n: int)
    ensures LevelsExpr(names, Assign(x, rhs), h, n)
            == LevelsExpr(names, rhs, h, n) + Mark(|GenStore(t, names, x)|, h + 1, n + NetExpr(rhs))
  {
    hide Mark, NetExpr;
  }

  lemma CallKind(t: Tables, arity: nat, name: string)
    requires arity <= 16
    ensures var part := GenCall(t, arity, name);
            && |part| == 3 == 1 + FixedOperands(part[0]) && StackEffect(part[0]) + arity == 0
            && part[0] < CODE_JUMP
  {
  }

  lemma {:induction false} Call1Fits(
      m: Machine, names: seq<string>, at: nat, e: Expr, a: Expr, name: string, temps: nat, bound: nat, ls: seq<Level>,
      n: int)
    requires IsCall1(e, a, name) && Placed(m, names, at, e, temps, bound, ls, n)
    ensures AllFit(m.code, ls, at, at + SizeExpr(names, e)) && HeightAt(ls, at) == |names| + temps
    decreases e, 0
  {
    hide *;
    var h, at1, call := |names| + temps, at + SizeExpr(names, a), GenCall(m.tables, 0, name);
    PlacedParts(m, names, at, e, temps, bound, ls, n);
    Call1Form(m, AnyEnv(names), SOME_WORLD, at, e, a, name, AnyValues(temps), bound);
    LevelsExprSize(names, a, h, n);
    Call1Levels(names, e, a, name, h, n);
    HoldsConcat(ls, at, LevelsExpr(names, a, h, n), Mark(3, h + 1, n + NetExpr(a)));
    CallKind(m.tables, 0, name);
    Opcodes();
    PlainFits(m.code, ls, at1, call, h + 1, n + NetExpr(a));
    PlacedParts(m, names, at, a, temps, bound, ls, n);
    ExprFits(m, names, at, a, temps, bound, ls, n);
    FitJoin(m.code, ls, at, at1, at1 + 3);
  }

  lemma Call1Levels(names: seq<string>, e: Expr, a: Expr, name: string, h: int, n: int)
    requires IsCall1(e, a, name)
    ensures LevelsExpr(names, e, h, n) == LevelsExpr(names, a, h, n) + Mark(3, h + 1, n + NetExpr(a))
  {
    hide LevelsExpr, Mark, NetExpr;
    match e
    case Unary(op, _) => UnaryLevels(names, op, a, h, n);
    case Get(_, field) => GetLevels(names, a, field, h, n);
  }

  lemma UnaryLevels(names: seq<string>, op: UnaryOp, a: Expr, h: int, n: int)
    ensures LevelsExpr(names, Unary(op, a), h, n) == LevelsExpr(names, a, h, n) + Mark(3, h + 1, n + NetExpr(a))
  {
    hide Mark, NetExpr, Innermost, SizeExpr, SizeLoad;
  }

  lemma GetLevels(names: seq<string>, a: Expr, field: string, h: int, n: int)
    ensures LevelsExpr(names, Get(a, field), h, n) == LevelsExpr(names, a, h, n) + Mark(3, h + 1, n + NetExpr(a))
  {
    hide Mark, NetExpr, Innermost, SizeExpr, SizeLoad;
  }

  lemma {:induction false} Call2Fits(
      m: Machine, names: seq<string>, at: nat, e: Expr, a: Expr, b: Expr, name: string, temps: nat, bound: nat,
      ls: seq<Level>, n: int)
    requires IsCall2(e, a, b, name) && Placed(m, names, at, e, temps, bound, ls, n)
    ensures AllFit(m.code, ls, at, at + SizeExpr(names, e)) && HeightAt(ls, at) == |names| + temps
    decreases e, 0
  {
    hide *;
    var h, n1 := |names| + temps, n + NetExpr(a);
    var at1, call := at + SizeExpr(names, a), GenCall(m.tables, 1, name);
    var at2 := at1 + SizeExpr(names, b);
    PlacedParts(m, names, at, e, temps, bound, ls, n);
    Call2Form(m, AnyEnv(names), SOME_WORLD, at, e, a, b, name, AnyValues(temps), bound);
    LevelsExprSize(names, a, h, n);
    LevelsExprSize(names, b, h + 1, n1);
    Call2Levels(names, e, a, b, name, h, n);
    HoldsConcat3(ls, at, LevelsExpr(names, a, h, n), LevelsExpr(names, b, h + 1, n1), Mark(3, h + 2, n1 + NetExpr(b)));
    CallKind(m.tables, 1, name);
    Opcodes();
    PlainFits(m.code, ls, at2, call, h + 2, n1 + NetExpr(b));
    PlacedParts(m, names, at1, b, temps + 1, bound, ls, n1);
    ExprFits(m, names, at1, b, temps + 1, bound, ls, n1);
    PlacedParts(m, names, at, a, temps, bound, ls, n);
    ExprFits(m, names, at, a, temps, bound, ls, n);
    FitJoin(m.code, ls, at, at1, at2);
    FitJoin(m.code, ls, at, at2, at2 + 3);
  }

  lemma Call2Levels(names: seq<string>, e: Expr, a: Expr, b: Expr, name: string, h: int, n: int)
    requires IsCall2(e, a, b, name)
    ensures LevelsExpr(names, e, h, n)
         == LevelsExpr(names, a, h, n) + LevelsExpr(names, b, h + 1, n + NetExpr(a))
            + Mark(3, h + 2, n + NetExpr(a) + NetExpr(b))
  {
    hide LevelsExpr, Mark, NetExpr;
    match e
    case Binary(op, _, _) => BinaryLevels(names, op, a, b, h, n);
    case Set(_, field, _) => SetLevels(names, a, field, b, h, n);
  }

  lemma BinaryLevels(names: seq<string>, op: BinaryOp, a: Expr, b: Expr, h: int, n: int)
    ensures LevelsExpr(names, Binary(op, a, b), h, n)
         == LevelsExpr(names, a, h, n) + LevelsExpr(names, b, h + 1, n + NetExpr(a))
            + Mark(3, h + 2, n + NetExpr(a) + NetExpr(b))
  {
    hide Mark, NetExpr, Innermost, SizeExpr, SizeLoad;
  }

  lemma SetLevels(names: seq<string>, a: Expr, field: string, b: Expr, h: int, n: int)
    ensures LevelsExpr(names, Set(a, field, b), h, n)
         == LevelsExpr(names, a, h, n) + LevelsExpr(names, b, h + 1, n + NetExpr(a))
            + Mark(3, h + 2, n + NetExpr(a) + NetExpr(b))
  {
    hide Mark, NetExpr, Innermost, SizeExpr, SizeLoad;
  }

  lemma {:induction false} LogicalFits(
      m: Machine, names: seq<string>, at: nat, e: Expr, op: byte, a: Expr, b: Expr, temps: nat, bound: nat,
      ls: seq<Level>, n: int)
    requires IsLogical(e, op, a, b) && Placed(m, names, at, e, temps, bound, ls, n)
    ensures AllFit(m.code, ls, at, at + SizeExpr(names, e)) && HeightAt(ls, at) == |names| + temps
    decreases e, 0
  {
    hide *;
    var h, n1 := |names| + temps, n + NetExpr(a);
    var at1 := at + SizeExpr(names, a);
    PlacedParts(m, names, at, e, temps, bound, ls, n);
    LogicalForm(m, names, at, e, op, a, b, temps, bound);
    LevelsExprSize(names, a, h, n);
    LogicalLevels(names, e, op, a, b, h, n);
    HoldsConcat3(ls, at, LevelsExpr(names, a, h, n), Mark(3, h + 1, n1), LevelsExpr(names, b, h, n1 - 1));
    PlacedParts(m, names, at1 + 3, b, temps, bound, ls, n1 - 1);
    ExprFits(m, names, at1 + 3, b, temps, bound, ls, n1 - 1);
    JumpFits(m.code, ls, at1, op, SizeExpr(names, b), h + 1, n1);
    PlacedParts(m, names, at, a, temps, bound, ls, n);
    ExprFits(m, names, at, a, temps, bound, ls, n);
    FitJoin(m.code, ls, at, at1, at1 + 3);
    FitJoin(m.code, ls, at, at1 + 3, at1 + 3 + SizeExpr(names, b));
  }

  lemma LogicalLevels(names: seq<string>, e: Expr, op: byte, a: Expr, b: Expr, h: int, n: int)
    requires IsLogical(e, op, a, b)
    ensures LevelsExpr(names, e, h, n)
            == LevelsExpr(names, a, h, n) + Mark(3, h + 1, n + NetExpr(a)) + LevelsExpr(names, b, h, n + NetExpr(a) - 1)
    ensures |Mark(3, h + 1, n + NetExpr(a))| == 3
    ensures op == CODE_AND || op == CODE_OR
    ensures CODE_JUMP < CODE_LOOP < CODE_JUMP_IF < CODE_AND < CODE_OR
  {
    hide LevelsExpr, Mark, NetExpr;
    AndLevels(names, a, b, h, n);
    OrLevels(names, a, b, h, n);
  }

  lemma AndLevels(names: seq<string>, a: Expr, b: Expr, h: int, n: int)
    ensures LevelsExpr(names, And(a, b), h, n)
            == LevelsExpr(names, a, h, n) + Mark(3, h + 1, n + NetExpr(a)) + LevelsExpr(names, b, h, n + NetExpr(a) - 1)
  {
    hide Mark, NetExpr, Innermost, SizeExpr, SizeLoad;
  }

  lemma OrLevels(names: seq<string>, a: Expr, b: Expr, h: int, n: int)
    ensures LevelsExpr(names, Or(a, b), h, n)
            == LevelsExpr(names, a, h, n) + Mark(3, h + 1, n + NetExpr(a)) + LevelsExpr(names, b, h, n + NetExpr(a) - 1)
  {
    hide Mark, NetExpr, Innermost, SizeExpr, SizeLoad;
  }

  lemma {:induction false} CondFits(
      m: Machine, names: seq<string>, at: nat, c: Expr, y: Expr, z: Expr, temps: nat, bound: nat, ls: seq<Level>,
      n: int)
    requires Placed(m, names, at, Cond(c, y, z), temps, bound, ls, n)
    ensures AllFit(m.code, ls, at, at + SizeExpr(names, Cond(c, y, z))) && HeightAt(ls, at) == |names| + temps
    decreases Cond(c, y, z), 0
  {
    hide *;
    var h, n1 := |names| + temps, n + NetExpr(c);
    var n2 := n1 - 1 + NetExpr(y);
    var atY := at + SizeExpr(names, c) + 3;
    var atZ := atY + SizeExpr(names, y) + 3;
    PlacedParts(m, names, at, Cond(c, y, z), temps, bound, ls, n);
    CondForm(m, AnyEnv(names), at, c, y, z, AnyValues(temps), bound);
    CondHolds(names, c, y, z, h, n, ls, at);
    Opcodes();
    PlacedParts(m, names, atZ, z, temps, bound, ls, n2);
    ExprFits(m, names, atZ, z, temps, bound, ls, n2);
    JumpFits(m.code, ls, atZ - 3, CODE_JUMP, SizeExpr(names, z), h + 1, n2);
    PlacedParts(m, names, atY, y, temps, bound, ls, n1 - 1);
    ExprFits(m, names, atY, y, temps, bound, ls, n1 - 1);
    JumpFits(m.code, ls, atY - 3, CODE_JUMP_IF, SizeExpr(names, y) + 3, h + 1, n1);
    PlacedParts(m, names, at, c, temps, bound, ls, n);
    ExprFits(m, names, at, c, temps, bound, ls, n);
    FitJoin(m.code, ls, at, atY - 3, atY);
    FitJoin(m.code, ls, at, atY, atZ - 3);
    FitJoin(m.code, ls, at, atZ - 3, atZ);
    FitJoin(m.code, ls, at, atZ, atZ + SizeExpr(names, z));
  }

  lemma Opcodes()
    ensures CODE_POP < CODE_JUMP < CODE_LOOP < CODE_JUMP_IF < CODE_AND < CODE_OR < CODE_RETURN < CODE_END
    ensures FixedOperands(CODE_POP) == 0 && StackEffect(CODE_POP) == -1 && FixedOperands(CODE_NULL) == 0
            && StackEffect(CODE_NULL) == 1 && CODE_NULL < CODE_POP
  {
  }

  lemma CondHolds(names: seq<string>, c: Expr, y: Expr, z: Expr, h: int, n: int, ls: seq<Level>, at: nat)
    requires Holds(ls, at, LevelsExpr(names, Cond(c, y, z), h, n))
    ensures var n1, atY := n + NetExpr(c), at + SizeExpr(names, c) + 3;
            var n2, atZ := n1 - 1 + NetExpr(y), atY + SizeExpr(names, y) + 3;
            && Holds(ls, at, LevelsExpr(names, c, h, n)) && Holds(ls, atY - 3, Mark(3, h + 1, n1))
               && Holds(ls, atY, LevelsExpr(names, y, h, n1 - 1))
            && Holds(ls, atZ - 3, Mark(3, h + 1, n2)) && Holds(ls, atZ, LevelsExpr(names, z, h, n2))
  {
    hide *;
    var n1 := n + NetExpr(c);
    var n2 := n1 - 1 + NetExpr(y);
    LevelsExprSize(names, c, h, n);
    LevelsExprSize(names, y, h, n1 - 1);
    CondLevels(names, c, y, z, h, n);
    var lc, ly, lz := LevelsExpr(names, c, h, n), LevelsExpr(names, y, h, n1 - 1), LevelsExpr(names, z, h, n2);
    HoldsConcat3(ls, at, lc + Mark(3, h + 1, n1) + ly, Mark(3, h + 1, n2), lz);
    HoldsConcat3(ls, at, lc, Mark(3, h + 1, n1), ly);
  }

  lemma CondLevels(names: seq<string>, c: Expr, y: Expr, z: Expr, h: int, n: int)
    ensures var n1 := n + NetExpr(c);
            var n2 := n1 - 1 + NetExpr(y);
            LevelsExpr(names, Cond(c, y, z), h, n)
            == LevelsExpr(names, c, h, n) + Mark(3, h + 1, n1) + LevelsExpr(names, y, h, n1 - 1) + Mark(3, h + 1, n2)
               + LevelsExpr(names, z, h, n2)
  {
    hide Mark, NetExpr, Innermost, SizeExpr, SizeLoad;
  }

  // ----- Statements -----

  // Where a statement starts, the height it leaves, and the heights around its loop.
  ghost predicate PlacedStmt(
      m: Machine, names: seq<string>, at: nat, loop: LoopInfo, s: Stmt, bound: nat, ls: seq<Level>, n: int)
  {
    && ReadyStmt(m, names, at, loop, s, bound) && Holds(ls, at, LevelsStmt(names, loop.locals, s, n))
    && HeightAt(ls, at + SizeStmt(names, loop.locals, s)) == |Declared(names, s)|
    && (loop.exit.To? ==> HeightAt(ls, loop.start) == HeightAt(ls, loop.exit.offset) == loop.locals)
  }

  lemma PlacedStmtParts(
      m: Machine, names: seq<string>, at: nat, loop: LoopInfo, s: Stmt, bound: nat, ls: seq<Level>, n: int)
    ensures PlacedStmt(m, names, at, loop, s, bound, ls, n)
            <==> ReadyStmt(m, names, at, loop, s, bound) && Holds(ls, at, LevelsStmt(names, loop.locals, s, n))
                 && HeightAt(ls, at + SizeStmt(names, loop.locals, s)) == |Declared(names, s)|
                 && (loop.exit.To? ==> HeightAt(ls, loop.start) == HeightAt(ls, loop.exit.offset) == loop.locals)
  {
    hide ReadyStmt, Holds, LevelsStmt, HeightAt, SizeStmt, Declared;
  }

  lemma {:induction false} StmtFits(
      m: Machine, names: seq<string>, at: nat, loop: LoopInfo, s: Stmt, bound: nat, ls: seq<Level>, n: int)
    requires PlacedStmt(m, names, at, loop, s, bound, ls, n)
    ensures AllFit(m.code, ls, at, at + SizeStmt(names, loop.locals, s)) && HeightAt(ls, at) == |names|
    decreases s, 1
  {
    hide PlacedStmt, AllFit, HeightAt;
    match s
    case Skip => SkipFits(m, names, at, loop, bound, ls, n);
    case Seq(a, b) => SeqFits(m, names, at, loop, a, b, bound, ls, n);
    case Evaluate(e) => EvaluateFits(m, names, at, loop, e, bound, ls, n);
    case Declare(x, e) => DeclareFits(m, names, at, loop, x, e, bound, ls, n);
    case Give(e) => GiveFits(m, names, at, loop, e, bound, ls, n);
    case Block(body) => BlockFits(m, names, at, loop, body, bound, ls, n);
    case IfThen(c, yes) => IfThenFits(m, names, at, loop, c, yes, bound, ls, n);
    case IfElse(c, yes, no) => IfElseFits(m, names, at, loop, c, yes, no, bound, ls, n);
    case Loop(c, body) => LoopFits(m, names, at, loop, c, body, bound, ls, n);
    case ForIn(x, sequence, body) => ForInFits(m, names, at, loop, x, sequence, body, bound, ls, n);
    case BreakLoop => EscapeFits(m, names, at, loop, s, bound, ls, n);
    case ContinueLoop => EscapeFits(m, names, at, loop, s, bound, ls, n);
  }

  lemma SkipFits(m: Machine, names: seq<string>, at: nat, loop: LoopInfo, bound: nat, ls: seq<Level>, n: int)
    requires PlacedStmt(m, names, at, loop, Skip, bound, ls, n)
    ensures AllFit(m.code, ls, at, at + SizeStmt(names, loop.locals, Skip)) && HeightAt(ls, at) == |names|
  {
    hide AllFit, HeightAt, ReadyStmt;
    NothingFits(m.code, ls, at);
  }

  lemma {:induction false} SeqFits(
      m: Machine, names: seq<string>, at: nat, loop: LoopInfo, a: Stmt, b: Stmt, bound: nat, ls: seq<Level>, n: int)
    requires PlacedStmt(m, names, at, loop, Seq(a, b), bound, ls, n)
    ensures AllFit(m.code, ls, at, at + SizeStmt(names, loop.locals, Seq(a, b))) && HeightAt(ls, at) == |names|
    decreases Seq(a, b), 0
  {
    hide *;
    var after, at1 := Declared(names, a), at + SizeStmt(names, loop.locals, a);
    PlacedStmtParts(m, names, at, loop, Seq(a, b), bound, ls, n);
    SeqReady(m, names, at, loop, a, b, bound);
    SeqLevels(names, loop.locals, a, b, n);
    LevelsSize(names, loop.locals, a, n);
    HoldsConcat(ls, at, LevelsStmt(names, loop.locals, a, n), LevelsStmt(after, loop.locals, b, n + NetStmt(names, a)));
    PlacedStmtParts(m, after, at1, loop, b, bound, ls, n + NetStmt(names, a));
    StmtFits(m, after, at1, loop, b, bound, ls, n + NetStmt(names, a));
    PlacedStmtParts(m, names, at, loop, a, bound, ls, n);
    StmtFits(m, names, at, loop, a, bound, ls, n);
    FitJoin(m.code, ls, at, at1, at1 + SizeStmt(after, loop.locals, b));
  }

  lemma SeqLevels(names: seq<string>, kept: nat, a: Stmt, b: Stmt, n: int)
    ensures LevelsStmt(names, kept, Seq(a, b), n)
            == LevelsStmt(names, kept, a, n) + LevelsStmt(Declared(names, a), kept, b, n + NetStmt(names, a))
    ensures Declared(names, Seq(a, b)) == Declared(Declared(names, a), b)
  {
    hide NetStmt;
  }

  // The levels of the simple statements.
  lemma SimpleLevels(names: seq<string>, kept: nat, e: Expr, x: string, n: int)
    ensures LevelsStmt(names, kept, Evaluate(e), n)
            == LevelsExpr(names, e, |names|, n) + Mark(1, |names| + 1, n + NetExpr(e))
    ensures LevelsStmt(names, kept, Give(e), n)
            == LevelsExpr(names, e, |names|, n) + Mark(1, |names| + 1, n + NetExpr(e))
    ensures LevelsStmt(names, kept, Declare(x, e), n) == LevelsExpr(names, e, |names|, n)
    ensures Declared(names, Evaluate(e)) == names && |Declared(names, Declare(x, e))| == |names| + 1
            && Declared(names, Give(e)) == names
  {
    hide Mark, NetExpr, LevelsExpr;
  }

  lemma {:induction false} EvaluateFits(
      m: Machine, names: seq<string>, at: nat, loop: LoopInfo, e: Expr, bound: nat, ls: seq<Level>, n: int)
    requires PlacedStmt(m, names, at, loop, Evaluate(e), bound, ls, n)
    ensures AllFit(m.code, ls, at, at + SizeStmt(names, loop.locals, Evaluate(e))) && HeightAt(ls, at) == |names|
  {
    hide *;
    var at1, n1 := at + SizeExpr(names, e), n + NetExpr(e);
    PlacedStmtParts(m, names, at, loop, Evaluate(e), bound, ls, n);
    EvaluateForm(m, 0, AnyEnv(names), SOME_WORLD, at, loop, e, bound);
    SimpleLevels(names, loop.locals, e, [], n);
    LevelsExprSize(names, e, |names|, n);
    HoldsConcat(ls, at, LevelsExpr(names, e, |names|, n), Mark(1, |names| + 1, n1));
    Opcodes();
    PlainFits(m.code, ls, at1, [CODE_POP], |names| + 1, n1);
    PlacedParts(m, names, at, e, 0, bound, ls, n);
    ExprFits(m, names, at, e, 0, bound, ls, n);
    FitJoin(m.code, ls, at, at1, at1 + 1);
  }

  lemma {:induction false} GiveFits(
      m: Machine, names: seq<string>, at: nat, loop: LoopInfo, e: Expr, bound: nat, ls: seq<Level>, n: int)
    requires PlacedStmt(m, names, at, loop, Give(e), bound, ls, n)
    ensures AllFit(m.code, ls, at, at + SizeStmt(names, loop.locals, Give(e))) && HeightAt(ls, at) == |names|
  {
    hide *;
    var at1, n1 := at + SizeExpr(names, e), n + NetExpr(e);
    PlacedStmtParts(m, names, at, loop, Give(e), bound, ls, n);
    GiveForm(m, 0, AnyEnv(names), SOME_WORLD, at, loop, e, bound);
    SimpleLevels(names, loop.locals, e, [], n);
    LevelsExprSize(names, e, |names|, n);
    HoldsConcat(ls, at, LevelsExpr(names, e, |names|, n), Mark(1, |names| + 1, n1));
    EndFits(m.code, ls, at1, CODE_RETURN, |names| + 1, n1);
    PlacedParts(m, names, at, e, 0, bound, ls, n);
    ExprFits(m, names, at, e, 0, bound, ls, n);
    FitJoin(m.code, ls, at, at1, at1 + 1);
  }

  lemma {:induction false} DeclareFits(
      m: Machine, names: seq<string>, at: nat, loop: LoopInfo, x: string, e: Expr, bound: nat, ls: seq<Level>, n: int)
    requires PlacedStmt(m, names, at, loop, Declare(x, e), bound, ls, n)
    ensures AllFit(m.code, ls, at, at + SizeStmt(names, loop.locals, Declare(x, e))) && HeightAt(ls, at) == |names|
  {
    hide *;
    PlacedStmtParts(m, names, at, loop, Declare(x, e), bound, ls, n);
    DeclareForm(m, 0, AnyEnv(names), SOME_WORLD, at, loop, x, e, bound);
    SimpleLevels(names, loop.locals, e, x, n);
    PlacedParts(m, names, at, e, 0, bound, ls, n);
    ExprFits(m, names, at, e, 0, bound, ls, n);
  }

  // Pops go down to the height after them.
  lemma {:induction false} PopsFit(code: seq<byte>, ls: seq<Level>, at: nat, k: nat, h: int, n: int)
    requires At(code, at, Pops(k)) && Holds(ls, at, LevelsPops(k, h, n)) && HeightAt(ls, at + k) == h - k
    ensures AllFit(code, ls, at, at + k) && HeightAt(ls, at) == h
    decreases k
  {
    hide *;
    if k == 0 {
      NothingFits(code, ls, at);
    } else {
      PopsForm(k, h, n);
      AtConcat(code, at, [CODE_POP], Pops(k - 1));
      HoldsConcat(ls, at, Mark(1, h, n), LevelsPops(k - 1, h - 1, n));
      PopsFit(code, ls, at + 1, k - 1, h - 1, n);
      Opcodes();
      PlainFits(code, ls, at, [CODE_POP], h, n);
      FitJoin(code, ls, at, at + 1, at + k);
    }
  }

  lemma PopsForm(k: nat, h: int, n: int)
    requires k > 0
    ensures Pops(k) == [CODE_POP] + Pops(k - 1) && LevelsPops(k, h, n) == Mark(1, h, n) + LevelsPops(k - 1, h - 1, n)
            && |Mark(1, h, n)| == 1
  {
  }

  lemma {:induction false} BlockFits(
      m: Machine, names: seq<string>, at: nat, loop: LoopInfo, body: Stmt, bound: nat, ls: seq<Level>, n: int)
    requires PlacedStmt(m, names, at, loop, Block(body), bound, ls, n)
    ensures AllFit(m.code, ls, at, at + SizeStmt(names, loop.locals, Block(body))) && HeightAt(ls, at) == |names|
    decreases Block(body), 0
  {
    hide *;
    var after, at1, n1 := |Declared(names, body)|, at + SizeStmt(names, loop.locals, body), n + NetStmt(names, body);
    PlacedStmtParts(m, names, at, loop, Block(body), bound, ls, n);
    BlockReady(m, names, at, loop, body, bound);
    BlockLevels(names, loop.locals, body, n);
    LevelsSize(names, loop.locals, body, n);
    HoldsConcat(ls, at, LevelsStmt(names, loop.locals, body, n), LevelsPops(after - |names|, after, n1));
    PopsFit(m.code, ls, at1, after - |names|, after, n1);
    PlacedStmtParts(m, names, at, loop, body, bound, ls, n);
    StmtFits(m, names, at, loop, body, bound, ls, n);
    FitJoin(m.code, ls, at, at1, at1 + after - |names|);
  }

  lemma BlockLevels(names: seq<string>, kept: nat, body: Stmt, n: int)
    ensures var after := |Declared(names, body)|;
            && after >= |names| && Declared(names, Block(body)) == names
            && LevelsStmt(names, kept, Block(body), n)
               == LevelsStmt(names, kept, body, n) + LevelsPops(after - |names|, after, n + NetStmt(names, body))
  {
    hide *;
    BlockCase(names, kept, body, n);
    BlockForm(names, kept, body, n);
    NothingDeclared(names, Block(body));
  }

  lemma BlockCase(names: seq<string>, kept: nat, body: Stmt, n: int)
    ensures LevelsStmt(names, kept, Block(body), n) == LevelsBlock(names, kept, body, n)
  {
    hide LevelsExpr, LevelsPops, LevelsTest, LevelsEscape, LevelsFor, LevelsLoads, NetExpr, NetStmt, Mark, ForNames,
         Declared, SizeExpr, SizeStmt, LevelsBlock, LevelsBranches, LevelsBody;
  }

  lemma BlockForm(names: seq<string>, kept: nat, body: Stmt, n: int)
    ensures var after := |Declared(names, body)|;
            && after >= |names|
            && LevelsBlock(names, kept, body, n)
               == LevelsStmt(names, kept, body, n) + LevelsPops(after - |names|, after, n + NetStmt(names, body))
  {
    hide LevelsExpr, LevelsPops, LevelsTest, LevelsEscape, LevelsFor, LevelsLoads, NetExpr, NetStmt, Mark, ForNames,
         Declared, SizeExpr, SizeStmt, LevelsStmt, LevelsBranches, LevelsBody;
  }

  lemma StatementNames(names: seq<string>, s: Stmt)
    requires IsStatement(s)
    ensures Declared(names, s) == names
  {
  }

  // A condition and its jump, between two heights that are the same.
  lemma {:induction false} TestFits(
      m: Machine, names: seq<string>, at: nat, c: Expr, d: nat, bound: nat, ls: seq<Level>, n: int)
    requires Ready(m, names, at, c, 0, bound) && Holds(ls, at, LevelsTest(names, c, n))
    requires At(m.code, at + SizeExpr(names, c), GenJump(CODE_JUMP_IF, d)) && d < 0x1_0000
    requires HeightAt(ls, at + SizeExpr(names, c) + 3) == HeightAt(ls, at + SizeExpr(names, c) + 3 + d) == |names|
    ensures AllFit(m.code, ls, at, at + SizeExpr(names, c) + 3) && HeightAt(ls, at) == |names|
  {
    hide *;
    var at1, n1 := at + SizeExpr(names, c), n + NetExpr(c);
    TestLevels(names, c, n);
    LevelsExprSize(names, c, |names|, n);
    HoldsConcat(ls, at, LevelsExpr(names, c, |names|, n), Mark(3, |names| + 1, n1));
    Opcodes();
    JumpFits(m.code, ls, at1, CODE_JUMP_IF, d, |names| + 1, n1);
    PlacedParts(m, names, at, c, 0, bound, ls, n);
    ExprFits(m, names, at, c, 0, bound, ls, n);
    FitJoin(m.code, ls, at, at1, at1 + 3);
  }

  lemma TestLevels(names: seq<string>, c: Expr, n: int)
    ensures LevelsTest(names, c, n) == LevelsExpr(names, c, |names|, n) + Mark(3, |names| + 1, n + NetExpr(c))
  {
  }

  lemma {:induction false} IfThenFits(
      m: Machine, names: seq<string>, at: nat, loop: LoopInfo, c: Expr, yes: Stmt, bound: nat, ls: seq<Level>, n: int)
    requires PlacedStmt(m, names, at, loop, IfThen(c, yes), bound, ls, n)
    ensures AllFit(m.code, ls, at, at + SizeStmt(names, loop.locals, IfThen(c, yes))) && HeightAt(ls, at) == |names|
    decreases IfThen(c, yes), 0
  {
    hide *;
    var atY, n1, size := at + SizeExpr(names, c) + 3, n + NetExpr(c) - 1, SizeStmt(names, loop.locals, yes);
    PlacedStmtParts(m, names, at, loop, IfThen(c, yes), bound, ls, n);
    IfThenReady(m, names, at, loop, c, yes, bound);
    IfThenLevels(names, loop.locals, c, yes, n);
    BranchIs(m, names, at, loop, c, yes, yes, bound);
    LevelsTestSize(names, c, n);
    HoldsConcat(ls, at, LevelsTest(names, c, n), LevelsStmt(names, loop.locals, yes, n1));
    PlacedStmtParts(m, names, atY, loop, yes, bound, ls, n1);
    StmtFits(m, names, atY, loop, yes, bound, ls, n1);
    TestFits(m, names, at, c, size, bound, ls, n);
    FitJoin(m.code, ls, at, atY, atY + size);
  }

  lemma IfThenLevels(names: seq<string>, kept: nat, c: Expr, yes: Stmt, n: int)
    ensures LevelsStmt(names, kept, IfThen(c, yes), n)
            == LevelsTest(names, c, n) + LevelsStmt(names, kept, yes, n + NetExpr(c) - 1)
    ensures Declared(names, IfThen(c, yes)) == names
  {
    hide *;
    IfThenCase(names, kept, c, yes, n);
    NothingDeclared(names, IfThen(c, yes));
  }

  lemma IfThenCase(names: seq<string>, kept: nat, c: Expr, yes: Stmt, n: int)
    ensures LevelsStmt(names, kept, IfThen(c, yes), n)
            == LevelsTest(names, c, n) + LevelsStmt(names, kept, yes, n + NetExpr(c) - 1)
  {
    hide LevelsExpr, LevelsPops, LevelsTest, LevelsEscape, LevelsFor, LevelsLoads, NetExpr, NetStmt, Mark, ForNames,
         Declared, SizeExpr, SizeStmt, LevelsBlock, LevelsBranches, LevelsBody;
  }

  lemma NothingDeclared(names: seq<string>, s: Stmt)
    requires s.IfThen? || s.IfElse? || s.Loop? || s.ForIn? || s.Block?
    ensures Declared(names, s) == names
  {
  }

  // The branches of an if statement declare nothing.
  lemma BranchIs(m: Machine, names: seq<string>, at: nat, loop: LoopInfo, c: Expr, yes: Stmt, no: Stmt, bound: nat)
    requires ReadyStmt(m, names, at, loop, IfThen(c, yes), bound)
             || ReadyStmt(m, names, at, loop, IfElse(c, yes, no), bound)
    ensures Declared(names, yes) == names
    ensures ReadyStmt(m, names, at, loop, IfElse(c, yes, no), bound) ==> Declared(names, no) == names
  {
    hide At, GenStmt, LocalsFit, CoversStmt, JumpsFitStmt, HeightStmt, Inside;
  }

  lemma {:induction false} IfElseFits(
      m: Machine, names: seq<string>, at: nat, loop: LoopInfo, c: Expr, yes: Stmt, no: Stmt, bound: nat, ls: seq<Level>,
      n: int)
    requires PlacedStmt(m, names, at, loop, IfElse(c, yes, no), bound, ls, n)
    ensures AllFit(m.code, ls, at, at + SizeStmt(names, loop.locals, IfElse(c, yes, no))) && HeightAt(ls, at) == |names|
    decreases IfElse(c, yes, no), 0
  {
    hide *;
    var n1 := n + NetExpr(c) - 1;
    var n2 := n1 + NetStmt(names, yes);
    var atY := at + SizeExpr(names, c) + 3;
    var sizeY, sizeN := SizeStmt(names, loop.locals, yes), SizeStmt(names, loop.locals, no);
    var atN := atY + sizeY + 3;
    PlacedStmtParts(m, names, at, loop, IfElse(c, yes, no), bound, ls, n);
    IfElseReady(m, names, at, loop, c, yes, no, bound);
    BranchIs(m, names, at, loop, c, yes, no, bound);
    IfElseHolds(names, loop.locals, c, yes, no, n, ls, at);
    Opcodes();
    PlacedStmtParts(m, names, atN, loop, no, bound, ls, n2);
    StmtFits(m, names, atN, loop, no, bound, ls, n2);
    JumpFits(m.code, ls, atN - 3, CODE_JUMP, sizeN, |names|, n2);
    PlacedStmtParts(m, names, atY, loop, yes, bound, ls, n1);
    StmtFits(m, names, atY, loop, yes, bound, ls, n1);
    TestFits(m, names, at, c, sizeY + 3, bound, ls, n);
    FitJoin(m.code, ls, at, atY, atN - 3);
    FitJoin(m.code, ls, at, atN - 3, atN);
    FitJoin(m.code, ls, at, atN, atN + sizeN);
  }

  lemma IfElseHolds(names: seq<string>, kept: nat, c: Expr, yes: Stmt, no: Stmt, n: int, ls: seq<Level>, at: nat)
    requires Holds(ls, at, LevelsStmt(names, kept, IfElse(c, yes, no), n))
    ensures var n1, atY := n + NetExpr(c) - 1, at + SizeExpr(names, c) + 3;
            var n2, atN := n1 + NetStmt(names, yes), atY + SizeStmt(names, kept, yes) + 3;
            && Holds(ls, at, LevelsTest(names, c, n)) && Holds(ls, atY, LevelsStmt(names, kept, yes, n1))
            && Holds(ls, atN - 3, Mark(3, |names|, n2)) && Holds(ls, atN, LevelsStmt(names, kept, no, n2))
    ensures Declared(names, IfElse(c, yes, no)) == names
  {
    hide *;
    var n1 := n + NetExpr(c) - 1;
    var n2 := n1 + NetStmt(names, yes);
    IfElseLevels(names, kept, c, yes, no, n);
    LevelsTestSize(names, c, n);
    LevelsSize(names, kept, yes, n1);
    HoldsConcat(ls, at, LevelsTest(names, c, n), LevelsBranches(names, kept, c, yes, no, n1));
    HoldsConcat3(ls, at + SizeExpr(names, c) + 3, LevelsStmt(names, kept, yes, n1), Mark(3, |names|, n2),
        LevelsStmt(names, kept, no, n2));
  }

  lemma IfElseLevels(names: seq<string>, kept: nat, c: Expr, yes: Stmt, no: Stmt, n: int)
    ensures LevelsStmt(names, kept, IfElse(c, yes, no), n)
            == LevelsTest(names, c, n) + LevelsBranches(names, kept, c, yes, no, n + NetExpr(c) - 1)
    ensures var n1 := n + NetExpr(c) - 1;
            LevelsBranches(names, kept, c, yes, no, n1)
            == LevelsStmt(names, kept, yes, n1) + Mark(3, |names|, n1 + NetStmt(names, yes))
               + LevelsStmt(names, kept, no, n1 + NetStmt(names, yes))
    ensures |Mark(3, |names|, n + NetExpr(c) - 1 + NetStmt(names, yes))| == 3
    ensures Declared(names, IfElse(c, yes, no)) == names
  {
    hide *;
    IfElseCase(names, kept, c, yes, no, n);
    BranchesForm(names, kept, c, yes, no, n + NetExpr(c) - 1);
    NothingDeclared(names, IfElse(c, yes, no));
  }

  lemma IfElseCase(names: seq<string>, kept: nat, c: Expr, yes: Stmt, no: Stmt, n: int)
    ensures LevelsStmt(names, kept, IfElse(c, yes, no), n)
            == LevelsTest(names, c, n) + LevelsBranches(names, kept, c, yes, no, n + NetExpr(c) - 1)
  {
    hide LevelsExpr, LevelsPops, LevelsTest, LevelsEscape, LevelsFor, LevelsLoads, NetExpr, NetStmt, Mark, ForNames,
         Declared, SizeExpr, SizeStmt, LevelsBlock, LevelsBranches, LevelsBody;
  }

  lemma BranchesForm(names: seq<string>, kept: nat, c: Expr, yes: Stmt, no: Stmt, n: int)
    ensures LevelsBranches(names, kept, c, yes, no, n)
            == LevelsStmt(names, kept, yes, n) + Mark(3, |names|, n + NetStmt(names, yes))
               + LevelsStmt(names, kept, no, n + NetStmt(names, yes))
  {
    hide LevelsExpr, LevelsPops, LevelsTest, LevelsEscape, LevelsFor, LevelsLoads, NetExpr, NetStmt, Mark, ForNames,
         Declared, SizeExpr, SizeStmt, LevelsStmt, LevelsBlock, LevelsBody;
  }

  lemma {:induction false} EscapeFits(
      m: Machine, names: seq<string>, at: nat, loop: LoopInfo, s: Stmt, bound: nat, ls: seq<Level>, n: int)
    requires (s.BreakLoop? || s.ContinueLoop?) && PlacedStmt(m, names, at, loop, s, bound, ls, n)
    ensures AllFit(m.code, ls, at, at + SizeStmt(names, loop.locals, s)) && HeightAt(ls, at) == |names|
  {
    hide *;
    PlacedStmtParts(m, names, at, loop, s, bound, ls, n);
    var k, d := EscapeReady(m, names, at, loop, s, bound);
    EscapeLevels(names, loop.locals, s, n);
    HoldsConcat(ls, at, LevelsPops(k, |names|, n), Mark(3, loop.locals, n));
    Opcodes();
    JumpFits(m.code, ls, at + k, if s.BreakLoop? then CODE_JUMP else CODE_LOOP, d, loop.locals, n);
    PopsFit(m.code, ls, at, k, |names|, n);
    FitJoin(m.code, ls, at, at + k, at + k + 3);
  }

  lemma EscapeLevels(names: seq<string>, kept: nat, s: Stmt, n: int)
    requires (s.BreakLoop? || s.ContinueLoop?) && kept <= |names|
    ensures LevelsStmt(names, kept, s, n) == LevelsPops(|names| - kept, |names|, n) + Mark(3, kept, n)
    ensures SizeStmt(names, kept, s) == |names| - kept + 3 && |LevelsPops(|names| - kept, |names|, n)| == |names| - kept
  {
    hide LevelsPops, Mark, Pops;
  }

  lemma {:induction false} LoopFits(
      m: Machine, names: seq<string>, at: nat, outer: LoopInfo, c: Expr, body: Stmt, bound: nat, ls: seq<Level>, n: int)
    requires PlacedStmt(m, names, at, outer, Loop(c, body), bound, ls, n)
    ensures AllFit(m.code, ls, at, at + SizeStmt(names, outer.locals, Loop(c, body))) && HeightAt(ls, at) == |names|
    decreases Loop(c, body), 0
  {
    hide *;
    var size, n1 := SizeLoop(names, c, body), n + NetExpr(c) - 1;
    var loop := LoopInfo(at, |names|, To(at + size));
    var atB, sizeB := at + SizeExpr(names, c) + 3, SizeStmt(names, |names|, body);
    PlacedStmtParts(m, names, at, outer, Loop(c, body), bound, ls, n);
    LoopWellFormed(m, names, at, outer, c, body, bound);
    WhileForm(m, 0, AnyEnv(names), SOME_WORLD, at, outer, c, body, bound);
    LoopReady(m, names, at, c, body, bound);
    LoopHolds(names, outer.locals, c, body, n, ls, at);
    StatementNames(names, body);
    Opcodes();
    JumpFits(m.code, ls, atB + sizeB, CODE_LOOP, size, |names|, n1 + NetStmt(names, body));
    PlacedStmtParts(m, names, atB, loop, body, bound, ls, n1);
    StmtFits(m, names, atB, loop, body, bound, ls, n1);
    TestFits(m, names, at, c, sizeB + 3, bound, ls, n);
    FitJoin(m.code, ls, at, atB, atB + sizeB);
    FitJoin(m.code, ls, at, atB + sizeB, at + size);
  }

  lemma LoopWellFormed(m: Machine, names: seq<string>, at: nat, outer: LoopInfo, c: Expr, body: Stmt, bound: nat)
    requires ReadyStmt(m, names, at, outer, Loop(c, body), bound)
    ensures WellFormed(body) && IsStatement(body)
  {
    hide At, GenStmt, LocalsFit, CoversStmt, JumpsFitStmt, HeightStmt, Inside;
  }

  lemma LoopHolds(names: seq<string>, kept: nat, c: Expr, body: Stmt, n: int, ls: seq<Level>, at: nat)
    requires Holds(ls, at, LevelsStmt(names, kept, Loop(c, body), n))
    ensures var n1, atB := n + NetExpr(c) - 1, at + SizeExpr(names, c) + 3;
            var atE := atB + SizeStmt(names, |names|, body);
            && Holds(ls, at, LevelsTest(names, c, n)) && Holds(ls, atB, LevelsStmt(names, |names|, body, n1))
            && Holds(ls, atE, Mark(3, |names|, n1 + NetStmt(names, body)))
    ensures HeightAt(ls, at) == |names| && Declared(names, Loop(c, body)) == names
  {
    hide *;
    var n1, atB := n + NetExpr(c) - 1, at + SizeExpr(names, c) + 3;
    LoopLevels(names, kept, c, body, n);
    LevelsTestSize(names, c, n);
    LevelsSize(names, |names|, body, n1);
    HoldsConcat(ls, at, LevelsTest(names, c, n), LevelsBody(names, body, n1));
    HoldsFirst(ls, at, LevelsTest(names, c, n), |names|, n);
    HoldsConcat(ls, atB, LevelsStmt(names, |names|, body, n1), Mark(3, |names|, n1 + NetStmt(names, body)));
  }

  lemma LoopLevels(names: seq<string>, kept: nat, c: Expr, body: Stmt, n: int)
    ensures LevelsStmt(names, kept, Loop(c, body), n)
            == LevelsTest(names, c, n) + LevelsBody(names, body, n + NetExpr(c) - 1)
    ensures var n1 := n + NetExpr(c) - 1;
            LevelsBody(names, body, n1)
                == LevelsStmt(names, |names|, body, n1) + Mark(3, |names|, n1 + NetStmt(names, body))
    ensures Declared(names, Loop(c, body)) == names
  {
    hide *;
    LoopCase(names, kept, c, body, n);
    BodyForm(names, body, n + NetExpr(c) - 1);
    NothingDeclared(names, Loop(c, body));
  }

  lemma LoopCase(names: seq<string>, kept: nat, c: Expr, body: Stmt, n: int)
    ensures LevelsStmt(names, kept, Loop(c, body), n)
            == LevelsTest(names, c, n) + LevelsBody(names, body, n + NetExpr(c) - 1)
  {
    hide LevelsExpr, LevelsPops, LevelsTest, LevelsEscape, LevelsFor, LevelsLoads, NetExpr, NetStmt, Mark, ForNames,
         Declared, SizeExpr, SizeStmt, LevelsBlock, LevelsBranches, LevelsBody;
  }

  lemma BodyForm(names: seq<string>, body: Stmt, n: int)
    ensures LevelsBody(names, body, n)
            == LevelsStmt(names, |names|, body, n) + Mark(3, |names|, n + NetStmt(names, body))
  {
    hide LevelsExpr, LevelsPops, LevelsTest, LevelsEscape, LevelsFor, LevelsLoads, NetExpr, NetStmt, Mark, ForNames,
         Declared, SizeExpr, SizeStmt, LevelsStmt, LevelsBlock, LevelsBranches;
  }

  // The calls on the two hidden locals.
  lemma LoadsFit(code: seq<byte>, ls: seq<Level>, t: Tables, at: nat, k: nat, name: string, h: int, n: int)
    requires At(code, at, GenLoadLocal(k) + GenLoadLocal(k + 1) + GenCall(t, 1, name))
             && Holds(ls, at, LevelsLoads(k, h, n))
    requires HeightAt(ls, at + |LevelsLoads(k, h, n)|) == h + 1
    ensures AllFit(code, ls, at, at + |LevelsLoads(k, h, n)|) && HeightAt(ls, at) == h
  {
    hide *;
    var a, b, call := GenLoadLocal(k), GenLoadLocal(k + 1), GenCall(t, 1, name);
    LoadsForm(t, k, name, h, n);
    AtConcat3(code, at, a, b, call);
    HoldsConcat3(ls, at, Mark(|a|, h, n), Mark(|b|, h + 1, n + 1), Mark(3, h + 2, n + 2));
    CallKind(t, 1, name);
    Opcodes();
    var at1 := at + |a|;
    var at2 := at1 + |b|;
    PlainFits(code, ls, at2, call, h + 2, n + 2);
    PlainFits(code, ls, at1, b, h + 1, n + 1);
    PlainFits(code, ls, at, a, h, n);
    FitJoin(code, ls, at, at1, at2);
    FitJoin(code, ls, at, at2, at2 + 3);
  }

  lemma LoadsForm(t: Tables, k: nat, name: string, h: int, n: int)
    ensures LevelsLoads(k, h, n)
            == Mark(|GenLoadLocal(k)|, h, n) + Mark(|GenLoadLocal(k + 1)|, h + 1, n + 1) + Mark(3, h + 2, n + 2)
    ensures |Mark(|GenLoadLocal(k)|, h, n)| == |GenLoadLocal(k)|
            && |Mark(|GenLoadLocal(k + 1)|, h + 1, n + 1)| == |GenLoadLocal(k + 1)|
    ensures forall part :: part == GenLoadLocal(k) || part == GenLoadLocal(k + 1) ==>
              part != [] && |part| == 1 + FixedOperands(part[0]) && StackEffect(part[0]) == 1 && part[0] < CODE_POP
  {
    hide Mark;
  }

  lemma {:induction false} ForInFits(
      m: Machine, names: seq<string>, at: nat, loop: LoopInfo, x: string, sequence: Expr, body: Stmt, bound: nat,
      ls: seq<Level>, n: int)
    requires PlacedStmt(m, names, at, loop, ForIn(x, sequence, body), bound, ls, n)
    ensures AllFit(m.code, ls, at, at + SizeStmt(names, loop.locals, ForIn(x, sequence, body)))
            && HeightAt(ls, at) == |names|
    decreases ForIn(x, sequence, body), 0
  {
    hide *;
    var n1, at1 := n + NetExpr(sequence), at + SizeExpr(names, sequence);
    var size, n2 := SizeForLoop(names, x, body), n1 + 1 + NetStmt(ForNames(names, x), body);
    PlacedStmtParts(m, names, at, loop, ForIn(x, sequence, body), bound, ls, n);
    ForInReady(m, names, at, loop, x, sequence, body, bound);
    ForInHolds(names, loop.locals, x, sequence, body, n, ls, at);
    PopsFit(m.code, ls, at1 + 1 + size, 2, |names| + 2, n2);
    ForFits(m, names, at1 + 1, x, body, bound, ls, n1 + 1);
    Opcodes();
    PlainFits(m.code, ls, at1, [CODE_NULL], |names| + 1, n1);
    PlacedParts(m, names, at, sequence, 0, bound, ls, n);
    ExprFits(m, names, at, sequence, 0, bound, ls, n);
    FitJoin(m.code, ls, at, at1, at1 + 1);
    FitJoin(m.code, ls, at, at1 + 1, at1 + 1 + size);
    FitJoin(m.code, ls, at, at1 + 1 + size, at1 + 1 + size + 2);
  }

  lemma ForInHolds(
      names: seq<string>, kept: nat, x: string, sequence: Expr, body: Stmt, n: int, ls: seq<Level>, at: nat)
    requires Holds(ls, at, LevelsStmt(names, kept, ForIn(x, sequence, body), n))
    ensures var n1, at1 := n + NetExpr(sequence), at + SizeExpr(names, sequence);
            && Holds(ls, at, LevelsExpr(names, sequence, |names|, n)) && Holds(ls, at1, Mark(1, |names| + 1, n1))
            && Holds(ls, at1 + 1, LevelsFor(names, x, body, n1 + 1))
            && Holds(ls, at1 + 1 + SizeForLoop(names, x, body),
               LevelsPops(2, |names| + 2, n1 + 1 + NetStmt(ForNames(names, x), body)))
    ensures Declared(names, ForIn(x, sequence, body)) == names
  {
    hide *;
    var n1, at1 := n + NetExpr(sequence), at + SizeExpr(names, sequence);
    ForInLevels(names, kept, x, sequence, body, n);
    LevelsExprSize(names, sequence, |names|, n);
    LevelsForSize(names, x, body, n1 + 1);
    var a, b := LevelsExpr(names, sequence, |names|, n), Mark(1, |names| + 1, n1);
    HoldsConcat3(ls, at, a + b, LevelsFor(names, x, body, n1 + 1),
        LevelsPops(2, |names| + 2, n1 + 1 + NetStmt(ForNames(names, x), body)));
    HoldsConcat(ls, at, a, b);
  }

  lemma ForInLevels(names: seq<string>, kept: nat, x: string, sequence: Expr, body: Stmt, n: int)
    ensures LevelsStmt(names, kept, ForIn(x, sequence, body), n)
         == LevelsExpr(names, sequence, |names|, n) + Mark(1, |names| + 1, n + NetExpr(sequence))
            + LevelsFor(names, x, body, n + NetExpr(sequence) + 1)
            + LevelsPops(2, |names| + 2, n + NetExpr(sequence) + 1 + NetStmt(ForNames(names, x), body))
    ensures |Mark(1, |names| + 1, n + NetExpr(sequence))| == 1
    ensures Declared(names, ForIn(x, sequence, body)) == names
  {
    hide LevelsExpr, NetExpr, NetStmt, LevelsFor, LevelsPops, ForNames;
  }

  lemma {:induction false} ForFits(
      m: Machine, names: seq<string>, at: nat, x: string, body: Stmt, bound: nat, ls: seq<Level>, n: int)
    requires ReadyFor(m, names, at, x, body, bound) && Holds(ls, at, LevelsFor(names, x, body, n))
    requires HeightAt(ls, at + SizeForLoop(names, x, body)) == |names| + 2
    ensures AllFit(m.code, ls, at, at + SizeForLoop(names, x, body)) && HeightAt(ls, at) == |names| + 2
    decreases body, 2
  {
    hide *;
    var h, k, size := |names| + 2, |names|, SizeForLoop(names, x, body);
    var inner := ForNames(names, x);
    var net, loop := NetStmt(inner, body), ForBodyLoop(names, at, x, body);
    var atI, atB := at + ItemOffset(names), at + BodyOffset(names);
    var sizeB := SizeStmt(inner, h, body);
    ForReady(m, names, at, x, body, bound);
    AdvanceCode(m, names, at, x, body, bound);
    ItemCode(m, names, at, x, body, bound);
    TailCode(m, names, at, x, body, bound);
    LoopInfoIs(names, at, x, body);
    ForHolds(names, x, body, n, ls, at);
    StatementNames(inner, body);
    Opcodes();
    JumpFits(m.code, ls, atB + sizeB + 1, CODE_LOOP, size, h, n + net);
    PlainFits(m.code, ls, atB + sizeB, [CODE_POP], h + 1, n + 1 + net);
    PlacedStmtParts(m, inner, atB, loop, body, bound, ls, n + 1);
    StmtFits(m, inner, atB, loop, body, bound, ls, n + 1);
    LoadsFit(m.code, ls, m.tables, atI, k, ITERATOR_VALUE, h, n);
    JumpFits(m.code, ls, atI - 3, CODE_JUMP_IF, at + size - atI, h + 1, n + 1);
    StoreFits(m.code, ls, atI - 5, k + 1, h + 1, n + 1);
    LoadsFit(m.code, ls, m.tables, at, k, ITERATE, h, n);
    FitJoin(m.code, ls, at, atI - 5, atI - 3);
    FitJoin(m.code, ls, at, atI - 3, atI);
    FitJoin(m.code, ls, at, atI, atB);
    FitJoin(m.code, ls, at, atB, atB + sizeB);
    FitJoin(m.code, ls, at, atB + sizeB, atB + sizeB + 1);
    FitJoin(m.code, ls, at, atB + sizeB + 1, at + size);
  }

  lemma StoreFits(code: seq<byte>, ls: seq<Level>, at: nat, slot: nat, h: int, n: int)
    requires At(code, at, GenStoreLocal(slot)) && Holds(ls, at, Mark(2, h, n)) && HeightAt(ls, at + 2) == h
    ensures AllFit(code, ls, at, at + 2) && HeightAt(ls, at) == h
  {
    hide At, Holds, HeightAt, AllFit, Mark;
    PlainFits(code, ls, at, GenStoreLocal(slot), h, n);
  }

  lemma ForHolds(names: seq<string>, x: string, body: Stmt, n: int, ls: seq<Level>, at: nat)
    requires Holds(ls, at, LevelsFor(names, x, body, n))
    ensures var h, k, inner := |names| + 2, |names|, ForNames(names, x);
            var atI, atB, net := at + ItemOffset(names), at + BodyOffset(names), NetStmt(inner, body);
            var atE := atB + SizeStmt(inner, h, body);
            && atI - 5 == at + |LevelsLoads(k, h, n)| && atB == atI + |LevelsLoads(k, h, n)| && HeightAt(ls, at) == h
               && |inner| == h + 1
            && Holds(ls, at, LevelsLoads(k, h, n)) && Holds(ls, atI - 5, Mark(2, h + 1, n + 1))
               && Holds(ls, atI - 3, Mark(3, h + 1, n + 1))
            && Holds(ls, atI, LevelsLoads(k, h, n)) && Holds(ls, atB, LevelsStmt(inner, h, body, n + 1))
            && Holds(ls, atE, Mark(1, h + 1, n + 1 + net)) && Holds(ls, atE + 1, Mark(3, h, n + net))
  {
    hide *;
    var h, k, inner := |names| + 2, |names|, ForNames(names, x);
    var net := NetStmt(inner, body);
    ForLevels(names, x, body, n);
    ForSizesAt(names, x, n, n + 1 + net);
    LevelsSize(inner, h, body, n + 1);
    var loads, store, test, b := LevelsLoads(k, h, n), Mark(2, h + 1, n + 1), Mark(3, h + 1, n + 1),
        LevelsStmt(inner, h, body, n + 1);
    HoldsConcat3(ls, at, loads + store + test + loads + b, Mark(1, h + 1, n + 1 + net), Mark(3, h, n + net));
    HoldsConcat3(ls, at, loads + store + test, loads, b);
    HoldsConcat3(ls, at, loads, store, test);
    HoldsFirst(ls, at, loads, h, n);
  }

  lemma ForSizesAt(names: seq<string>, x: string, n: int, c: int)
    ensures var h, k := |names| + 2, |names|;
            var size := |LevelsLoads(k, h, n)|;
            && ItemOffset(names) == size + 5 && BodyOffset(names) == ItemOffset(names) + size && size > 0
               && LevelsLoads(k, h, n)[0] == Start(h, n)
    ensures |ForNames(names, x)| == |names| + 3
    ensures |Mark(2, |names| + 3, n + 1)| == 2 && |Mark(3, |names| + 3, n + 1)| == 3
    ensures |Mark(1, |names| + 3, c)| == 1
  {
  }

  lemma ForLevels(names: seq<string>, x: string, body: Stmt, n: int)
    ensures var h, k, inner := |names| + 2, |names|, ForNames(names, x);
            var net := NetStmt(inner, body);
            LevelsFor(names, x, body, n)
            == LevelsLoads(k, h, n) + Mark(2, h + 1, n + 1) + Mark(3, h + 1, n + 1) + LevelsLoads(k, h, n)
               + LevelsStmt(inner, h, body, n + 1)
               + Mark(1, h + 1, n + 1 + net) + Mark(3, h, n + net)
  {
    hide LevelsLoads, Mark, LevelsStmt, NetStmt, ForNames;
  }

  // ----- Whole functions -----

  lemma {:induction false} BodyFits(m: Machine, names: seq<string>, body: Body)
    requires Compiled(m, names, body)
    ensures var ls := Levels(names, body); AllFit(m.code, ls, 0, |ls|) && HeightAt(ls, 0) == |names|
  {
    hide *;
    match body
    case Result(e) => ResultFits(m, names, e);
    case Statements(s) => StatementsFit(m, names, s);
  }

  lemma {:induction false} ResultFits(m: Machine, names: seq<string>, e: Expr)
    requires Compiled(m, names, Result(e))
    ensures var ls := Levels(names, Result(e)); AllFit(m.code, ls, 0, |ls|) && HeightAt(ls, 0) == |names|
  {
    hide *;
    var ls, at, h, n, bound := Levels(names, Result(e)), SizeExpr(names, e), |names| + 1, 1 + NetExpr(e), |names|
        + HeightExpr(e);
    ResultReady(m, names, e, bound);
    ResultEnd(m, names, e);
    ResultLevels(names, e);
    LevelsExprSize(names, e, |names|, 1);
    Whole(ls);
    HoldsConcat3(ls, 0, LevelsExpr(names, e, |names|, 1), Mark(1, h, n), Mark(1, h, n));
    EndFits(m.code, ls, at, CODE_RETURN, h, n);
    EndFits(m.code, ls, at + 1, CODE_END, h, n);
    PlacedParts(m, names, 0, e, 0, bound, ls, 1);
    ExprFits(m, names, 0, e, 0, bound, ls, 1);
    FitJoin(m.code, ls, 0, at, at + 1);
    FitJoin(m.code, ls, 0, at + 1, at + 2);
  }

  lemma Whole(ls: seq<Level>)
    ensures Holds(ls, 0, ls)
  {
  }

  lemma ResultLevels(names: seq<string>, e: Expr)
    ensures var n := 1 + NetExpr(e);
            Levels(names, Result(e))
                == LevelsExpr(names, e, |names|, 1) + Mark(1, |names| + 1, n) + Mark(1, |names| + 1, n)
                   && |Mark(1, |names| + 1, n)| == 1
  {
    hide LevelsExpr, NetExpr;
  }

  lemma ResultEnd(m: Machine, names: seq<string>, e: Expr)
    requires Compiled(m, names, Result(e))
    ensures At(m.code, SizeExpr(names, e) + 1, [CODE_END])
  {
    hide GenExpr, SizeExpr, At, CoversExpr, JumpsFitExpr;
    AtConcat3(m.code, 0, GenExpr(m.tables, names, e), [CODE_RETURN], [CODE_END]);
  }

  lemma {:induction false} StatementsFit(m: Machine, names: seq<string>, s: Stmt)
    requires Compiled(m, names, Statements(s))
    ensures var ls := Levels(names, Statements(s)); AllFit(m.code, ls, 0, |ls|) && HeightAt(ls, 0) == |names|
  {
    hide *;
    var ls, at, bound := Levels(names, Statements(s)), SizeStmt(names, 0, s), |names| + HeightStmt(names, s);
    var h, n := |Declared(names, s)|, 1 + NetStmt(names, s);
    StatementsReady(m, names, s, bound);
    StatementsEnd(m, names, s);
    StatementsLevels(names, s);
    LevelsSize(names, 0, s, 1);
    Whole(ls);
    HoldsConcat3(ls, 0, LevelsStmt(names, 0, s, 1) + Mark(1, h, n), Mark(1, h + 1, n + 1), Mark(1, h + 1, n + 1));
    HoldsConcat(ls, 0, LevelsStmt(names, 0, s, 1), Mark(1, h, n));
    EndFits(m.code, ls, at + 2, CODE_END, h + 1, n + 1);
    EndFits(m.code, ls, at + 1, CODE_RETURN, h + 1, n + 1);
    Opcodes();
    PlainFits(m.code, ls, at, [CODE_NULL], h, n);
    PlacedStmtParts(m, names, 0, NO_LOOP, s, bound, ls, 1);
    StmtFits(m, names, 0, NO_LOOP, s, bound, ls, 1);
    FitJoin(m.code, ls, 0, at, at + 1);
    FitJoin(m.code, ls, 0, at + 1, at + 2);
    FitJoin(m.code, ls, 0, at + 2, at + 3);
  }

  lemma StatementsLevels(names: seq<string>, s: Stmt)
    ensures var h, n := |Declared(names, s)|, 1 + NetStmt(names, s);
            && Levels(names, Statements(s))
               == LevelsStmt(names, 0, s, 1) + Mark(1, h, n) + Mark(1, h + 1, n + 1) + Mark(1, h + 1, n + 1)
            && |Mark(1, h, n)| == 1 && |Mark(1, h + 1, n + 1)| == 1
    ensures NO_LOOP.locals == 0 && NO_LOOP.exit.Pending?
  {
    hide LevelsStmt, NetStmt, Declared;
  }

  lemma StatementsEnd(m: Machine, names: seq<string>, s: Stmt)
    requires Compiled(m, names, Statements(s))
    ensures At(m.code, SizeStmt(names, 0, s) + 2, [CODE_END])
  {
    hide GenStmt, SizeStmt, At, CoversStmt, JumpsFitStmt, LocalsFit, WellFormed, Escapes;
    StmtSize(m.tables, names, 0, NO_LOOP, s);
    AtConcat3(m.code, 0, GenStmt(m.tables, names, 0, NO_LOOP, s) + [CODE_NULL], [CODE_RETURN], [CODE_END]);
  }

  // ----- The count is never behind the height -----

  // With [d] added, heights are at most the count, which is at most [top].
  ghost predicate Counted(ls: seq<Level>, d: int, top: int) {
    forall i :: 0 <= i < |ls| && ls[i].Start? ==> ls[i].height + d <= ls[i].slots <= top
  }

  lemma CountedJoin(a: seq<Level>, b: seq<Level>, d: int, top: int)
    requires Counted(a, d, top) && Counted(b, d, top)
    ensures Counted(a + b, d, top)
  {
    var c := a + b;
    forall i | 0 <= i < |c| && c[i].Start? ensures c[i].height + d <= c[i].slots <= top {
      assert c[i] == if i < |a| then a[i] else b[i - |a|];
    }
  }

  lemma CountedMark(k: nat, h: int, n: int, d: int, top: int)
    requires h + d <= n <= top
    ensures Counted(Mark(k, h, n), d, top)
  {
    var part := Mark(k, h, n);
    forall i | 0 < i < |part| ensures part[i] == Operand {
      RestOperands(|part| - 1, i - 1);
    }
  }

  lemma {:induction false} CountedExpr(names: seq<string>, e: Expr, h: int, n: int, d: int, top: int)
    requires h + d <= n && n + PeakExpr(e) <= top
    ensures Counted(LevelsExpr(names, e, h, n), d, top)
    decreases e
  {
    hide Counted, LevelsExpr, NetExpr;
    match e
    case Lit(_) => CountedLeaf(names, e, h, n, d, top);
    case Variable(x) => CountedLeaf(names, e, h, n, d, top);
    case Assign(x, rhs) =>
      CountedExpr(names, rhs, h, n, d, top);
      CountedAssign(names, x, rhs, h, n, d, top);
    case Unary(uop, a) =>
      CountedExpr(names, a, h, n, d, top);
      CountedCall1(names, e, a, UnaryName(uop), h, n, d, top);
    case Get(a, name) =>
      CountedExpr(names, a, h, n, d, top);
      CountedCall1(names, e, a, name, h, n, d, top);
    case Binary(op, a, b) =>
      CountedExpr(names, a, h, n, d, top);
      CountedExpr(names, b, h + 1, n + NetExpr(a), d, top);
      CountedCall2(names, e, a, b, BinaryName(op), h, n, d, top);
    case Set(a, name, b) =>
      CountedExpr(names, a, h, n, d, top);
      CountedExpr(names, b, h + 1, n + NetExpr(a), d, top);
      CountedCall2(names, e, a, b, SetterName(name), h, n, d, top);
    case And(a, b) =>
      CountedExpr(names, a, h, n, d, top);
      CountedExpr(names, b, h, n + NetExpr(a) - 1, d, top);
      CountedLogical(names, e, CODE_AND, a, b, h, n, d, top);
    case Or(a, b) =>
      CountedExpr(names, a, h, n, d, top);
      CountedExpr(names, b, h, n + NetExpr(a) - 1, d, top);
      CountedLogical(names, e, CODE_OR, a, b, h, n, d, top);
    case Cond(c, y, z) =>
      CountedExpr(names, c, h, n, d, top);
      CountedExpr(names, y, h, n + NetExpr(c) - 1, d, top);
      CountedExpr(names, z, h, n + NetExpr(c) - 1 + NetExpr(y), d, top);
      CountedCond(names, c, y, z, h, n, d, top);
  }

  lemma CountedThen(a: seq<Level>, k: nat, h: int, n: int, d: int, top: int)
    requires Counted(a, d, top) && h + d <= n <= top
    ensures Counted(a + Mark(k, h, n), d, top)
  {
    hide Counted, Mark;
    CountedMark(k, h, n, d, top);
    CountedJoin(a, Mark(k, h, n), d, top);
  }

  lemma CountedLeaf(names: seq<string>, e: Expr, h: int, n: int, d: int, top: int)
    requires (e.Lit? || e.Variable?) && h + d <= n <= top
    ensures Counted(LevelsExpr(names, e, h, n), d, top)
  {
    hide Counted, Mark, Innermost;
    CountedMark(SizeExpr(names, e), h, n, d, top);
  }

  lemma CountedAssign(names: seq<string>, x: string, rhs: Expr, h: int, n: int, d: int, top: int)
    requires Counted(LevelsExpr(names, rhs, h, n), d, top) && h + d <= n && n + NetExpr(rhs) <= top
    ensures Counted(LevelsExpr(names, Assign(x, rhs), h, n), d, top)
  {
    hide Counted, LevelsExpr, Mark, NetExpr, GenStore;
    var t := Tables([], [], []);
    AssignLevels(t, names, x, rhs, h, n);
    CountedThen(LevelsExpr(names, rhs, h, n), |GenStore(t, names, x)|, h + 1, n + NetExpr(rhs), d, top);
  }

  lemma CountedCall1(names: seq<string>, e: Expr, a: Expr, name: string, h: int, n: int, d: int, top: int)
    requires IsCall1(e, a, name) && Counted(LevelsExpr(names, a, h, n), d, top) && h + d <= n && n + NetExpr(a) <= top
    ensures Counted(LevelsExpr(names, e, h, n), d, top)
  {
    hide Counted, LevelsExpr, Mark, NetExpr;
    Call1Levels(names, e, a, name, h, n);
    CountedThen(LevelsExpr(names, a, h, n), 3, h + 1, n + NetExpr(a), d, top);
  }

  lemma CountedCall2(names: seq<string>, e: Expr, a: Expr, b: Expr, name: string, h: int, n: int, d: int, top: int)
    requires IsCall2(e, a, b, name) && h + d <= n && n + NetExpr(a) + NetExpr(b) <= top
    requires Counted(LevelsExpr(names, a, h, n), d, top) && Counted(LevelsExpr(names, b, h + 1, n + NetExpr(a)), d, top)
    ensures Counted(LevelsExpr(names, e, h, n), d, top)
  {
    hide Counted, Mark, LevelsExpr, NetExpr;
    var la, lb := LevelsExpr(names, a, h, n), LevelsExpr(names, b, h + 1, n + NetExpr(a));
    Call2Levels(names, e, a, b, name, h, n);
    CountedJoin(la, lb, d, top);
    CountedThen(la + lb, 3, h + 2, n + NetExpr(a) + NetExpr(b), d, top);
  }

  lemma CountedLogical(names: seq<string>, e: Expr, op: byte, a: Expr, b: Expr, h: int, n: int, d: int, top: int)
    requires IsLogical(e, op, a, b) && h + d <= n && n + NetExpr(a) <= top
    requires Counted(LevelsExpr(names, a, h, n), d, top) && Counted(LevelsExpr(names, b, h, n + NetExpr(a) - 1), d, top)
    ensures Counted(LevelsExpr(names, e, h, n), d, top)
  {
    hide Counted, Mark, LevelsExpr, NetExpr;
    var la, lb := LevelsExpr(names, a, h, n), LevelsExpr(names, b, h, n + NetExpr(a) - 1);
    LogicalLevels(names, e, op, a, b, h, n);
    CountedThen(la, 3, h + 1, n + NetExpr(a), d, top);
    CountedJoin(la + Mark(3, h + 1, n + NetExpr(a)), lb, d, top);
  }

  lemma CountedCond(names: seq<string>, c: Expr, y: Expr, z: Expr, h: int, n: int, d: int, top: int)
    requires h + d <= n && n + NetExpr(c) <= top && n + NetExpr(c) - 1 + NetExpr(y) <= top
    requires Counted(LevelsExpr(names, c, h, n), d, top) && Counted(LevelsExpr(names, y, h, n + NetExpr(c) - 1), d, top)
    requires Counted(LevelsExpr(names, z, h, n + NetExpr(c) - 1 + NetExpr(y)), d, top)
    ensures Counted(LevelsExpr(names, Cond(c, y, z), h, n), d, top)
  {
    hide Counted, Mark, LevelsExpr, NetExpr;
    var n1 := n + NetExpr(c);
    var n2 := n1 - 1 + NetExpr(y);
    var lc, ly, lz := LevelsExpr(names, c, h, n), LevelsExpr(names, y, h, n1 - 1), LevelsExpr(names, z, h, n2);
    CondLevels(names, c, y, z, h, n);
    CountedThen(lc, 3, h + 1, n1, d, top);
    CountedJoin(lc + Mark(3, h + 1, n1), ly, d, top);
    CountedThen(lc + Mark(3, h + 1, n1) + ly, 3, h + 1, n2, d, top);
    CountedJoin(lc + Mark(3, h + 1, n1) + ly + Mark(3, h + 1, n2), lz, d, top);
  }

  lemma {:induction false} CountedPops(k: int, h: int, n: int, d: int, top: int)
    requires h + d <= n <= top
    ensures Counted(LevelsPops(k, h, n), d, top)
    decreases k
  {
    if k > 0 {
      CountedPops(k - 1, h - 1, n, d, top);
      CountedMark(1, h, n, d, top);
      CountedJoin(Mark(1, h, n), LevelsPops(k - 1, h - 1, n), d, top);
    }
  }

  lemma CountedTest(names: seq<string>, c: Expr, n: int, d: int, top: int)
    requires |names| + d <= n && n + PeakExpr(c) <= top
    ensures Counted(LevelsTest(names, c, n), d, top)
  {
    hide Counted, LevelsExpr, NetExpr, PeakExpr, Mark;
    TestLevels(names, c, n);
    CountedExpr(names, c, |names|, n, d, top);
    CountedThen(LevelsExpr(names, c, |names|, n), 3, |names| + 1, n + NetExpr(c), d, top);
  }

  lemma {:induction false} CountedStmt(names: seq<string>, kept: nat, s: Stmt, n: int, d: int, top: int)
    requires |names| + d <= n && n + PeakStmt(names, s) <= top
    ensures Counted(LevelsStmt(names, kept, s, n), d, top)
    decreases s, 1
  {
    hide Counted, LevelsExpr, LevelsStmt, NetExpr, PeakExpr, NetStmt, LevelsTest, LevelsPops, LevelsFor, Mark, Declared;
    match s
    case Skip => CountedSkip(names, kept, n, d, top);
    case Seq(a, b) =>
      var n1 := n + NetStmt(names, a);
      SeqLevels(names, kept, a, b, n);
      CountedStmt(names, kept, a, n, d, top);
      CountedStmt(Declared(names, a), kept, b, n1, d, top);
      CountedJoin(LevelsStmt(names, kept, a, n), LevelsStmt(Declared(names, a), kept, b, n1), d, top);
    case Evaluate(e) =>
      SimpleLevels(names, kept, e, [], n);
      CountedExpr(names, e, |names|, n, d, top);
      CountedThen(LevelsExpr(names, e, |names|, n), 1, |names| + 1, n + NetExpr(e), d, top);
    case Give(e) =>
      SimpleLevels(names, kept, e, [], n);
      CountedExpr(names, e, |names|, n, d, top);
      CountedThen(LevelsExpr(names, e, |names|, n), 1, |names| + 1, n + NetExpr(e), d, top);
    case Declare(x, e) =>
      SimpleLevels(names, kept, e, x, n);
      CountedExpr(names, e, |names|, n, d, top);
    case Block(body) =>
      var after, n1 := |Declared(names, body)|, n + NetStmt(names, body);
      BlockLevels(names, kept, body, n);
      CountedStmt(names, kept, body, n, d, top);
      CountedPops(after - |names|, after, n1, d, top);
      CountedJoin(LevelsStmt(names, kept, body, n), LevelsPops(after - |names|, after, n1), d, top);
    case IfThen(c, yes) =>
      IfThenLevels(names, kept, c, yes, n);
      CountedTest(names, c, n, d, top);
      CountedStmt(names, kept, yes, n + NetExpr(c) - 1, d, top);
      CountedJoin(LevelsTest(names, c, n), LevelsStmt(names, kept, yes, n + NetExpr(c) - 1), d, top);
    case IfElse(c, yes, no) => CountedIfElse(names, kept, c, yes, no, n, d, top);
    case Loop(c, body) => CountedLoop(names, kept, c, body, n, d, top);
    case ForIn(x, sequence, body) => CountedForIn(names, kept, x, sequence, body, n, d, top);
    case BreakLoop => CountedEscape(names, kept, s, n, d, top);
    case ContinueLoop => CountedEscape(names, kept, s, n, d, top);
  }

  lemma CountedSkip(names: seq<string>, kept: nat, n: int, d: int, top: int)
    ensures Counted(LevelsStmt(names, kept, Skip, n), d, top)
  {
  }

  lemma CountedEscape(names: seq<string>, kept: nat, s: Stmt, n: int, d: int, top: int)
    requires (s.BreakLoop? || s.ContinueLoop?) && |names| + d <= n <= top
    ensures Counted(LevelsStmt(names, kept, s, n), d, top)
  {
    hide Counted, LevelsPops, Mark, Pops;
    var k := |names| - kept;
    CountedPops(k, |names|, n, d, top);
    CountedThen(LevelsPops(k, |names|, n), 3, |names| - |Pops(k)|, n, d, top);
  }

  lemma {:induction false} CountedIfElse(
      names: seq<string>, kept: nat, c: Expr, yes: Stmt, no: Stmt, n: int, d: int, top: int)
    requires |names| + d <= n && n + PeakStmt(names, IfElse(c, yes, no)) <= top
    ensures Counted(LevelsStmt(names, kept, IfElse(c, yes, no), n), d, top)
    decreases IfElse(c, yes, no), 0
  {
    hide Counted, LevelsStmt, LevelsBranches, NetExpr, PeakExpr, NetStmt, LevelsTest, Mark;
    var n1 := n + NetExpr(c) - 1;
    var n2 := n1 + NetStmt(names, yes);
    var ly, lz := LevelsStmt(names, kept, yes, n1), LevelsStmt(names, kept, no, n2);
    IfElseLevels(names, kept, c, yes, no, n);
    CountedTest(names, c, n, d, top);
    CountedStmt(names, kept, yes, n1, d, top);
    CountedThen(ly, 3, |names|, n2, d, top);
    CountedStmt(names, kept, no, n2, d, top);
    CountedJoin(ly + Mark(3, |names|, n2), lz, d, top);
    CountedJoin(LevelsTest(names, c, n), LevelsBranches(names, kept, c, yes, no, n1), d, top);
  }

  lemma {:induction false} CountedLoop(names: seq<string>, kept: nat, c: Expr, body: Stmt, n: int, d: int, top: int)
    requires |names| + d <= n && n + PeakStmt(names, Loop(c, body)) <= top
    ensures Counted(LevelsStmt(names, kept, Loop(c, body), n), d, top)
    decreases Loop(c, body), 0
  {
    hide Counted, LevelsStmt, LevelsBody, NetExpr, PeakExpr, NetStmt, LevelsTest, Mark;
    var n1 := n + NetExpr(c) - 1;
    LoopLevels(names, kept, c, body, n);
    CountedTest(names, c, n, d, top);
    CountedStmt(names, |names|, body, n1, d, top);
    CountedThen(LevelsStmt(names, |names|, body, n1), 3, |names|, n1 + NetStmt(names, body), d, top);
    CountedJoin(LevelsTest(names, c, n), LevelsBody(names, body, n1), d, top);
  }

  lemma CountedLoads(k: nat, h: int, n: int, d: int, top: int)
    requires h + d <= n && n + 2 <= top
    ensures Counted(LevelsLoads(k, h, n), d, top)
  {
    hide Counted, Mark, GenLoadLocal;
    var a, b := |GenLoadLocal(k)|, |GenLoadLocal(k + 1)|;
    CountedMark(a, h, n, d, top);
    CountedThen(Mark(a, h, n), b, h + 1, n + 1, d, top);
    CountedThen(Mark(a, h, n) + Mark(b, h + 1, n + 1), 3, h + 2, n + 2, d, top);
  }

  lemma {:induction false} CountedFor(names: seq<string>, x: string, body: Stmt, n: int, d: int, top: int)
    requires |names| + 2 + d <= n && n + 2 <= top && n + 1 + PeakStmt(ForNames(names, x), body) <= top
    ensures Counted(LevelsFor(names, x, body, n), d, top)
    decreases body, 2
  {
    hide *;
    var h, k, inner := |names| + 2, |names|, ForNames(names, x);
    var net := NetStmt(inner, body);
    ForLevels(names, x, body, n);
    ForSizesAt(names, x, n, 0);
    NetKept(inner, body);
    var loads, b := LevelsLoads(k, h, n), LevelsStmt(inner, h, body, n + 1);
    CountedLoads(k, h, n, d, top);
    CountedThen(loads, 2, h + 1, n + 1, d, top);
    var store := loads + Mark(2, h + 1, n + 1);
    CountedThen(store, 3, h + 1, n + 1, d, top);
    var test := store + Mark(3, h + 1, n + 1);
    CountedJoin(test, loads, d, top);
    CountedStmt(inner, h, body, n + 1, d, top);
    CountedJoin(test + loads, b, d, top);
    CountedThen(test + loads + b, 1, h + 1, n + 1 + net, d, top);
    CountedThen(test + loads + b + Mark(1, h + 1, n + 1 + net), 3, h, n + net, d, top);
  }

  lemma NetKept(names: seq<string>, s: Stmt)
    ensures 0 <= NetStmt(names, s) <= PeakStmt(names, s)
  {
  }

  lemma {:induction false} CountedForIn(
      names: seq<string>, kept: nat, x: string, sequence: Expr, body: Stmt, n: int, d: int, top: int)
    requires |names| + d <= n && n + PeakStmt(names, ForIn(x, sequence, body)) <= top
    ensures Counted(LevelsStmt(names, kept, ForIn(x, sequence, body), n), d, top)
    decreases ForIn(x, sequence, body), 0
  {
    hide Counted, LevelsStmt, LevelsFor, LevelsExpr, NetExpr, PeakExpr, NetStmt, LevelsPops, Mark, ForNames;
    var n1, inner := n + NetExpr(sequence), ForNames(names, x);
    var n2 := n1 + 1 + NetStmt(inner, body);
    var ls := LevelsExpr(names, sequence, |names|, n);
    ForInLevels(names, kept, x, sequence, body, n);
    NetKept(inner, body);
    CountedExpr(names, sequence, |names|, n, d, top);
    CountedThen(ls, 1, |names| + 1, n1, d, top);
    CountedFor(names, x, body, n1 + 1, d, top);
    CountedJoin(ls + Mark(1, |names| + 1, n1), LevelsFor(names, x, body, n1 + 1), d, top);
    CountedPops(2, |names| + 2, n2, d, top);
    CountedJoin(ls + Mark(1, |names| + 1, n1) + LevelsFor(names, x, body, n1 + 1), LevelsPops(2, |names| + 2, n2), d,
        top);
  }

  lemma CountedBody(names: seq<string>, body: Body)
    requires names != []
    ensures Counted(Levels(names, body), 1 - |names|, MaxSlots(names, body))
  {
    hide Counted, LevelsExpr, LevelsStmt, NetExpr, PeakExpr, NetStmt, PeakStmt, Mark, Declared;
    var d, top := 1 - |names|, MaxSlots(names, body);
    match body
    case Result(e) =>
      var ls, h, n := LevelsExpr(names, e, |names|, 1), |names| + 1, 1 + NetExpr(e);
      CountedExpr(names, e, |names|, 1, d, top);
      CountedThen(ls, 1, h, n, d, top);
      CountedThen(ls + Mark(1, h, n), 1, h, n, d, top);
    case Statements(s) =>
      var ls, h, n := LevelsStmt(names, 0, s, 1), |Declared(names, s)|, 1 + NetStmt(names, s);
      NetKept(names, s);
      CountedStmt(names, 0, s, 1, d, top);
      CountedThen(ls, 1, h, n, d, top);
      CountedThen(ls + Mark(1, h, n), 1, h + 1, n + 1, d, top);
      CountedThen(ls + Mark(1, h, n) + Mark(1, h + 1, n + 1), 1, h + 1, n + 1, d, top);
  }

  // At every state of every run, an instruction starts, the stack has the height that
  // the instruction has on every path, and above the arguments that is less than the
  // count the compiler had there, which is at most its high-water mark.
  lemma {:induction false} HeightKnown(m: Machine, env: Env, w: World, body: Body, k: nat, s: State, bound: nat)
    requires Compiled(m, env.names, body) && env.names != [] && Reach(m, State(0, env.values, w), k, s, bound)
    ensures var ls := Levels(env.names, body);
            && s.ip < |ls| && ls[s.ip].Start? && |s.stack| == ls[s.ip].height
            && |s.stack| - |env.names| < ls[s.ip].slots <= MaxSlots(env.names, body)
  {
    hide Reach, AllFit, Compiled, Levels, MaxSlots;
    var ls := Levels(env.names, body);
    BodyFits(m, env.names, body);
    ReachFits(m, ls, State(0, env.values, w), k, s, bound);
    CountedBody(env.names, body);
  }
}
