/** The bytecode of each construct, with every jump already resolved. The compiler
    emits the same bytes in one pass, patching jumps afterwards. */
module CodeGen {
  import opened Syntax
  import opened Semantics
  import opened Bytes
  import opened Bytecode
  import opened Sequences

  // The tables that operands index: the constants of the function, the method
  // symbols of the VM, and the variables of the module.
  datatype Tables = Tables(consts: seq<Value>, methods: seq<string>, globals: seq<string>)

  function GenLoadLocal(slot: nat): seq<byte> {
    if slot <= 8 then [CODE_LOAD_LOCAL_0 + slot] else [CODE_LOAD_LOCAL, slot % 256]
  }

  function GenStoreLocal(slot: nat): seq<byte> {
    [CODE_STORE_LOCAL, slot % 256]
  }

  function GenCall(t: Tables, arity: nat, name: string): (r: seq<byte>)
    requires arity <= 16
    ensures |r| == 3
  {
    [CODE_CALL_0 + arity] + Short(IndexOf(t.methods, name))
  }

  function GenJump(op: byte, offset: int): (r: seq<byte>)
    ensures |r| == 3
  {
    [op] + Short(if offset < 0 then 0 else offset)
  }

  function GenLiteral(t: Tables, v: Value): seq<byte> {
    match v
    case Null => [CODE_NULL]
    case False => [CODE_FALSE]
    case True => [CODE_TRUE]
    case _ => [CODE_CONSTANT] + Short(IndexOf(t.consts, v))
  }

  function GenLoad(t: Tables, names: seq<string>, x: string): seq<byte> {
    var slot := Innermost(names, x);
    if slot >= 0 then GenLoadLocal(slot) else [CODE_LOAD_MODULE_VAR] + Short(IndexOf(t.globals, x))
  }

  function GenStore(t: Tables, names: seq<string>, x: string): seq<byte> {
    var slot := Innermost(names, x);
    if slot >= 0 then GenStoreLocal(slot) else [CODE_STORE_MODULE_VAR] + Short(IndexOf(t.globals, x))
  }

  function SizeLoad(names: seq<string>, x: string): nat {
    if 0 <= Innermost(names, x) <= 8 then 1 else if Innermost(names, x) >= 0 then 2 else 3
  }

  // The number of bytes of an expression.
  function SizeExpr(names: seq<string>, e: Expr): nat {
    match e
    case Lit(v) => if v.Null? || v.False? || v.True? then 1 else 3
    case Variable(x) => SizeLoad(names, x)
    case Assign(x, rhs) => SizeExpr(names, rhs) + (if Innermost(names, x) >= 0 then 2 else 3)
    case Unary(_, operand) => SizeExpr(names, operand) + 3
    case Binary(_, left, right) => SizeExpr(names, left) + SizeExpr(names, right) + 3
    case And(left, right) => SizeExpr(names, left) + 3 + SizeExpr(names, right)
    case Or(left, right) => SizeExpr(names, left) + 3 + SizeExpr(names, right)
    case Cond(test, yes, no) => SizeExpr(names, test) + 3 + SizeExpr(names, yes) + 3 + SizeExpr(names, no)
    case Get(receiver, _) => SizeExpr(names, receiver) + 3
    case Set(receiver, _, rhs) => SizeExpr(names, receiver) + SizeExpr(names, rhs) + 3
  }

  function GenExpr(t: Tables, names: seq<string>, e: Expr): (r: seq<byte>)
    ensures |r| == SizeExpr(names, e)
  {
    match e
    case Lit(v) => GenLiteral(t, v)
    case Variable(x) => GenLoad(t, names, x)
    case Assign(x, rhs) => GenExpr(t, names, rhs) + GenStore(t, names, x)
    case Unary(uop, operand) => GenExpr(t, names, operand) + GenCall(t, 0, UnaryName(uop))
    case Binary(op, left, right) =>
      GenExpr(t, names, left) + GenExpr(t, names, right) + GenCall(t, 1, BinaryName(op))
    case And(left, right) =>
      var r := GenExpr(t, names, right);
      GenExpr(t, names, left) + GenJump(CODE_AND, |r|) + r
    case Or(left, right) =>
      var r := GenExpr(t, names, right);
      GenExpr(t, names, left) + GenJump(CODE_OR, |r|) + r
    case Cond(test, yes, no) =>
      var y, n := GenExpr(t, names, yes), GenExpr(t, names, no);
      GenExpr(t, names, test) + GenJump(CODE_JUMP_IF, |y| + 3) + y + GenJump(CODE_JUMP, |n|) + n
    case Get(receiver, name) => GenExpr(t, names, receiver) + GenCall(t, 0, name)
    case Set(receiver, name, rhs) =>
      GenExpr(t, names, receiver) + GenExpr(t, names, rhs) + GenCall(t, 1, SetterName(name))
  }

  // ----- Statements -----

  // Where a jump out of the innermost loop goes. While the loop is still being
  // compiled its end is unknown, and a placeholder stands for the jump.
  datatype Exit = Pending | To(offset: nat)

  // The innermost loop: where it starts, and how many locals it does not own.
  datatype LoopInfo = LoopInfo(start: nat, locals: nat, exit: Exit)

  function Pops(n: int): (r: seq<byte>)
    ensures |r| == if n < 0 then 0 else n
  {
    if n <= 0 then [] else [CODE_POP] + Pops(n - 1)
  }

  function GenBreak(at: nat, exit: Exit): (r: seq<byte>)
    ensures |r| == 3
  {
    match exit
    case Pending => [CODE_END, 0xff, 0xff]
    case To(end) => GenJump(CODE_JUMP, end - (at + 3))
  }

  // The number of bytes of a statement, which no jump target changes. [kept] is
  // the number of locals outside the innermost loop.
  function SizeStmt(names: seq<string>, kept: nat, s: Stmt): nat
    decreases s, 0
  {
    match s
    case Skip => 0
    case Seq(first, rest) => SizeStmt(names, kept, first) + SizeStmt(Declared(names, first), kept, rest)
    case Evaluate(e) => SizeExpr(names, e) + 1
    case Declare(_, init) => SizeExpr(names, init)
    case Block(body) => SizeStmt(names, kept, body) + |Declared(names, body)| - |names|
    case IfThen(c, yes) => SizeExpr(names, c) + 3 + SizeStmt(names, kept, yes)
    case IfElse(c, yes, no) => SizeExpr(names, c) + 3 + SizeStmt(names, kept, yes) + 3 + SizeStmt(names, kept, no)
    case Loop(c, body) => SizeLoop(names, c, body)
    case ForIn(x, sequence, body) =>
      SizeExpr(names, sequence) + 1 + SizeForLoop(names, x, body) + 2
    case BreakLoop => |Pops(|names| - kept)| + 3
    case ContinueLoop => |Pops(|names| - kept)| + 3
    case Give(e) => SizeExpr(names, e) + 1
  }

  function SizeLoop(names: seq<string>, c: Expr, body: Stmt): nat
    decreases body, 1
  {
    SizeExpr(names, c) + 3 + SizeStmt(names, |names|, body) + 3
  }

  function SizeForLoop(names: seq<string>, x: string, body: Stmt): nat
    decreases body, 1
  {
    |GenAdvance(Tables([], [], []), |names|)| + 3 + |GenItem(Tables([], [], []), |names|)|
    + SizeStmt(ForNames(names, x), |names| + 2, body) + 1 + 3
  }

  // The locals inside a for statement over [x].
  function ForNames(names: seq<string>, x: string): seq<string> {
    names + [SEQ_LOCAL, ITER_LOCAL] + [x]
  }

  // The part of a for statement that runs before each iteration of its body,
  // split at the conditional jump out of the loop. [n] is the number of locals
  // around the statement, so the hidden ones are in slots [n] and [n + 1].
  function GenAdvance(t: Tables, n: nat): seq<byte> {
    GenLoadLocal(n) + GenLoadLocal(n + 1) + GenCall(t, 1, ITERATE) + GenStoreLocal(n + 1)
  }

  function GenItem(t: Tables, n: nat): seq<byte> {
    GenLoadLocal(n) + GenLoadLocal(n + 1) + GenCall(t, 1, ITERATOR_VALUE)
  }

  // The code of [s] placed at offset [at].
  function GenStmt(t: Tables, names: seq<string>, at: nat, loop: LoopInfo, s: Stmt): seq<byte>
    decreases s, 0
  {
    match s
    case Skip => []
    case Seq(first, rest) => GenSeq(t, names, at, loop, first, rest)
    case Evaluate(e) => GenExpr(t, names, e) + [CODE_POP]
    case Declare(_, init) => GenExpr(t, names, init)
    case Block(body) => GenBlock(t, names, at, loop, body)
    case IfThen(c, yes) => GenIfThen(t, names, at, loop, c, yes)
    case IfElse(c, yes, no) => GenIfElse(t, names, at, loop, c, yes, no)
    case Loop(c, body) => GenLoop(t, names, at, c, body)
    case ForIn(x, sequence, body) => GenForIn(t, names, at, x, sequence, body)
    case BreakLoop => Pops(|names| - loop.locals) + GenBreak(at + |Pops(|names| - loop.locals)|, loop.exit)
    case ContinueLoop => GenContinue(at, Pops(|names| - loop.locals), loop)
    case Give(e) => GenExpr(t, names, e) + [CODE_RETURN]
  }

  function GenContinue(at: nat, pops: seq<byte>, loop: LoopInfo): seq<byte> {
    pops + GenJump(CODE_LOOP, at + |pops| + 3 - loop.start)
  }

  function GenSeq(t: Tables, names: seq<string>, at: nat, loop: LoopInfo, first: Stmt, rest: Stmt): seq<byte>
    decreases Seq(first, rest), 0, 0
  {
    var f := GenStmt(t, names, at, loop, first);
    f + GenStmt(t, Declared(names, first), at + |f|, loop, rest)
  }

  function GenBlock(t: Tables, names: seq<string>, at: nat, loop: LoopInfo, body: Stmt): seq<byte>
    decreases body, 1
  {
    GenStmt(t, names, at, loop, body) + Pops(|Declared(names, body)| - |names|)
  }

  function GenIfThen(t: Tables, names: seq<string>, at: nat, loop: LoopInfo, c: Expr, yes: Stmt): seq<byte>
    decreases yes, 1
  {
    var y := GenStmt(t, names, at + SizeExpr(names, c) + 3, loop, yes);
    GenExpr(t, names, c) + GenJump(CODE_JUMP_IF, |y|) + y
  }

  function GenIfElse(t: Tables, names: seq<string>, at: nat, loop: LoopInfo, c: Expr, yes: Stmt, no: Stmt): seq<byte>
    decreases IfElse(c, yes, no), 0, 0
  {
    var y := GenStmt(t, names, at + SizeExpr(names, c) + 3, loop, yes);
    GenExpr(t, names, c)
    + GenBranches(y, GenStmt(t, names, at + SizeExpr(names, c) + 3 + |y| + 3, loop, no))
  }

  function GenForIn(t: Tables, names: seq<string>, at: nat, x: string, sequence: Expr, body: Stmt): seq<byte>
    decreases body, 2
  {
    GenExpr(t, names, sequence) + [CODE_NULL]
    + GenForLoop(t, names, at + SizeExpr(names, sequence) + 1, x, body) + Pops(2)
  }

  // The two branches of an if statement, after its condition.
  function GenBranches(yes: seq<byte>, no: seq<byte>): (r: seq<byte>)
    ensures |r| == 3 + |yes| + 3 + |no|
  {
    GenJump(CODE_JUMP_IF, |yes| + 3) + yes + GenJump(CODE_JUMP, |no|) + no
  }

  // A while statement at offset [at].
  function GenLoop(t: Tables, names: seq<string>, at: nat, c: Expr, body: Stmt): seq<byte>
    decreases body, 1
  {
    var cond := GenExpr(t, names, c);
    var size := SizeLoop(names, c, body);
    var b := GenStmt(t, names, at + |cond| + 3, LoopInfo(at, |names|, To(at + size)), body);
    cond + GenJump(CODE_JUMP_IF, |b| + 3) + b + GenJump(CODE_LOOP, size)
  }

  // The loop of a for statement, which starts at offset [at].
  function GenForLoop(t: Tables, names: seq<string>, at: nat, x: string, body: Stmt): seq<byte>
    decreases body, 1
  {
    var advance := GenAdvance(t, |names|);
    var item := GenItem(t, |names|);
    var size := SizeForLoop(names, x, body);
    var bodyAt := at + |advance| + 3 + |item|;
    var b := GenStmt(t, ForNames(names, x), bodyAt, LoopInfo(at, |names| + 2, To(at + size)), body);
    advance + GenJump(CODE_JUMP_IF, |item| + |b| + 1 + 3) + (item + b + [CODE_POP]) + GenJump(CODE_LOOP, size)
  }

  // ----- One construct at a time -----

  // The code of each construct in terms of its parts.

  lemma SeqForm(t: Tables, names: seq<string>, at: nat, loop: LoopInfo, first: Stmt, rest: Stmt)
    ensures var f := GenStmt(t, names, at, loop, first);
            GenStmt(t, names, at, loop, Seq(first, rest))
                == f + GenStmt(t, Declared(names, first), at + |f|, loop, rest)
  {
    hide *;
    SeqUnfolds(t, names, at, loop, first, rest);
    SeqParts(t, names, at, loop, first, rest);
  }

  lemma SeqUnfolds(t: Tables, names: seq<string>, at: nat, loop: LoopInfo, first: Stmt, rest: Stmt)
    ensures GenStmt(t, names, at, loop, Seq(first, rest)) == GenSeq(t, names, at, loop, first, rest)
  {
    hide GenSeq;
  }

  lemma SeqParts(t: Tables, names: seq<string>, at: nat, loop: LoopInfo, first: Stmt, rest: Stmt)
    ensures var f := GenStmt(t, names, at, loop, first);
            GenSeq(t, names, at, loop, first, rest) == f + GenStmt(t, Declared(names, first), at + |f|, loop, rest)
  {
    hide GenStmt, Declared;
  }

  lemma IfElseUnfolds(t: Tables, names: seq<string>, at: nat, loop: LoopInfo, c: Expr, yes: Stmt, no: Stmt)
    ensures GenStmt(t, names, at, loop, IfElse(c, yes, no)) == GenIfElse(t, names, at, loop, c, yes, no)
  {
    hide GenIfElse;
  }

  lemma IfElseParts(t: Tables, names: seq<string>, at: nat, loop: LoopInfo, c: Expr, yes: Stmt, no: Stmt)
    ensures var y := GenStmt(t, names, at + SizeExpr(names, c) + 3, loop, yes);
            GenIfElse(t, names, at, loop, c, yes, no)
            == GenExpr(t, names, c)
               + GenBranches(y, GenStmt(t, names, at + SizeExpr(names, c) + 3 + |y| + 3, loop, no))
  {
    hide GenStmt, GenExpr, SizeExpr, GenBranches;
  }

  lemma BlockForm(t: Tables, names: seq<string>, at: nat, loop: LoopInfo, body: Stmt)
    ensures GenStmt(t, names, at, loop, Block(body))
         == GenStmt(t, names, at, loop, body) + Pops(|Declared(names, body)| - |names|)
  {
    hide *;
    BlockUnfolds(t, names, at, loop, body);
    BlockParts(t, names, at, loop, body);
  }

  lemma BlockUnfolds(t: Tables, names: seq<string>, at: nat, loop: LoopInfo, body: Stmt)
    ensures GenStmt(t, names, at, loop, Block(body)) == GenBlock(t, names, at, loop, body)
  {
    hide GenBlock;
  }

  lemma BlockParts(t: Tables, names: seq<string>, at: nat, loop: LoopInfo, body: Stmt)
    ensures GenBlock(t, names, at, loop, body)
         == GenStmt(t, names, at, loop, body) + Pops(|Declared(names, body)| - |names|)
  {
    hide GenStmt, Declared, Pops;
  }

  lemma IfThenForm(t: Tables, names: seq<string>, at: nat, loop: LoopInfo, c: Expr, yes: Stmt)
    ensures var y := GenStmt(t, names, at + SizeExpr(names, c) + 3, loop, yes);
            GenStmt(t, names, at, loop, IfThen(c, yes)) == GenExpr(t, names, c) + GenJump(CODE_JUMP_IF, |y|) + y
  {
    hide *;
    IfThenUnfolds(t, names, at, loop, c, yes);
    IfThenParts(t, names, at, loop, c, yes);
  }

  lemma IfThenUnfolds(t: Tables, names: seq<string>, at: nat, loop: LoopInfo, c: Expr, yes: Stmt)
    ensures GenStmt(t, names, at, loop, IfThen(c, yes)) == GenIfThen(t, names, at, loop, c, yes)
  {
    hide GenIfThen;
  }

  lemma IfThenParts(t: Tables, names: seq<string>, at: nat, loop: LoopInfo, c: Expr, yes: Stmt)
    ensures var y := GenStmt(t, names, at + SizeExpr(names, c) + 3, loop, yes);
            GenIfThen(t, names, at, loop, c, yes) == GenExpr(t, names, c) + GenJump(CODE_JUMP_IF, |y|) + y
  {
    hide GenStmt, GenExpr, SizeExpr, GenJump;
  }

  lemma IfElseForm(t: Tables, names: seq<string>, at: nat, loop: LoopInfo, c: Expr, yes: Stmt, no: Stmt)
    ensures var y := GenStmt(t, names, at + SizeExpr(names, c) + 3, loop, yes);
            GenStmt(t, names, at, loop, IfElse(c, yes, no))
            == GenExpr(t, names, c)
               + GenBranches(y, GenStmt(t, names, at + SizeExpr(names, c) + 3 + |y| + 3, loop, no))
  {
    hide *;
    IfElseUnfolds(t, names, at, loop, c, yes, no);
    IfElseParts(t, names, at, loop, c, yes, no);
  }

  lemma LoopForm(t: Tables, names: seq<string>, at: nat, c: Expr, body: Stmt)
    ensures var size := SizeLoop(names, c, body);
            var b := GenStmt(t, names, at + SizeExpr(names, c) + 3, LoopInfo(at, |names|, To(at + size)), body);
            GenLoop(t, names, at, c, body)
            == GenExpr(t, names, c) + GenJump(CODE_JUMP_IF, |b| + 3) + b + GenJump(CODE_LOOP, size)
  {
    hide GenStmt, GenJump, GenExpr, SizeExpr, SizeLoop;
  }

  // Where the body of a for statement starts, relative to the start of the loop.
  function BodyOffset(names: seq<string>): nat {
    |GenAdvance(Tables([], [], []), |names|)| + 3 + |GenItem(Tables([], [], []), |names|)|
  }

  lemma ForLoopForm(t: Tables, names: seq<string>, at: nat, x: string, body: Stmt)
    ensures |GenAdvance(t, |names|)| + 3 + |GenItem(t, |names|)| == BodyOffset(names)
    ensures var size := SizeForLoop(names, x, body);
            var item := GenItem(t, |names|);
            var b := GenStmt(t, ForNames(names, x), at + BodyOffset(names), LoopInfo(at, |names| + 2, To(at + size)),
                body);
            GenForLoop(t, names, at, x, body)
            == GenAdvance(t, |names|) + GenJump(CODE_JUMP_IF, |item| + |b| + 1 + 3) + (item + b + [CODE_POP])
               + GenJump(CODE_LOOP, size)
  {
    hide GenStmt, SizeForLoop, GenJump, ForNames;
  }

  lemma ForInForm(t: Tables, names: seq<string>, at: nat, loop: LoopInfo, x: string, sequence: Expr, body: Stmt)
    ensures GenStmt(t, names, at, loop, ForIn(x, sequence, body))
         == GenExpr(t, names, sequence) + [CODE_NULL]
            + GenForLoop(t, names, at + SizeExpr(names, sequence) + 1, x, body) + Pops(2)
  {
    hide *;
    ForInUnfolds(t, names, at, loop, x, sequence, body);
    ForInParts(t, names, at, x, sequence, body);
  }

  lemma ForInUnfolds(t: Tables, names: seq<string>, at: nat, loop: LoopInfo, x: string, sequence: Expr, body: Stmt)
    ensures GenStmt(t, names, at, loop, ForIn(x, sequence, body)) == GenForIn(t, names, at, x, sequence, body)
  {
    hide GenForIn;
  }

  lemma ForInParts(t: Tables, names: seq<string>, at: nat, x: string, sequence: Expr, body: Stmt)
    ensures GenForIn(t, names, at, x, sequence, body)
         == GenExpr(t, names, sequence) + [CODE_NULL]
            + GenForLoop(t, names, at + SizeExpr(names, sequence) + 1, x, body) + Pops(2)
  {
    hide GenStmt, GenExpr, SizeExpr, GenForLoop, Pops;
  }

  // The sizes of the compound statements in terms of their parts.
  lemma SizeForms(names: seq<string>, kept: nat, c: Expr, a: Stmt, b: Stmt)
    ensures SizeStmt(names, kept, Seq(a, b)) == SizeStmt(names, kept, a) + SizeStmt(Declared(names, a), kept, b)
    ensures SizeStmt(names, kept, Block(a)) == SizeStmt(names, kept, a) + |Declared(names, a)| - |names|
    ensures SizeStmt(names, kept, IfThen(c, a)) == SizeExpr(names, c) + 3 + SizeStmt(names, kept, a)
    ensures SizeStmt(names, kept, IfElse(c, a, b))
            == SizeExpr(names, c) + 3 + SizeStmt(names, kept, a) + 3 + SizeStmt(names, kept, b)
  {
    hide SizeExpr, Declared;
  }

  lemma LoopSizes(names: seq<string>, kept: nat, c: Expr, a: Stmt, x: string)
    ensures SizeStmt(names, kept, Loop(c, a))
            == SizeLoop(names, c, a) == SizeExpr(names, c) + 3 + SizeStmt(names, |names|, a) + 3
    ensures SizeForLoop(names, x, a) == BodyOffset(names) + SizeStmt(ForNames(names, x), |names| + 2, a) + 1 + 3
    ensures SizeStmt(names, kept, ForIn(x, c, a)) == SizeExpr(names, c) + 1 + SizeForLoop(names, x, a) + 2
  {
    hide *;
    WhileSizes(names, kept, c, a);
    ForSizes(names, x, a);
    ForInSizes(names, kept, c, a, x);
  }

  lemma WhileSizes(names: seq<string>, kept: nat, c: Expr, a: Stmt)
    ensures SizeStmt(names, kept, Loop(c, a))
            == SizeLoop(names, c, a) == SizeExpr(names, c) + 3 + SizeStmt(names, |names|, a) + 3
  {
    hide SizeExpr;
  }

  lemma ForSizes(names: seq<string>, x: string, a: Stmt)
    ensures SizeForLoop(names, x, a) == BodyOffset(names) + SizeStmt(ForNames(names, x), |names| + 2, a) + 1 + 3
  {
    hide SizeStmt, GenAdvance, GenItem, ForNames;
  }

  lemma ForInSizes(names: seq<string>, kept: nat, c: Expr, a: Stmt, x: string)
    ensures SizeStmt(names, kept, ForIn(x, c, a)) == SizeExpr(names, c) + 1 + SizeForLoop(names, x, a) + 2
  {
    hide SizeExpr, SizeForLoop;
  }

  // ----- Sizes -----

  // The code of a statement has the size computed in advance, wherever it is
  // placed and whatever its jumps are.
  lemma {:induction false} StmtSize(t: Tables, names: seq<string>, at: nat, loop: LoopInfo, s: Stmt)
    ensures |GenStmt(t, names, at, loop, s)| == SizeStmt(names, loop.locals, s)
    decreases s, 2
  {
    match s
    case Seq(first, rest) => SeqSize(t, names, at, loop, first, rest);
    case Block(body) => BlockSize(t, names, at, loop, body);
    case IfThen(c, yes) => IfThenSize(t, names, at, loop, c, yes);
    case IfElse(c, yes, no) => IfElseSize(t, names, at, loop, c, yes, no);
    case Loop(c, body) => LoopSize(t, names, at, c, body);
    case ForIn(x, sequence, body) => ForInSize(t, names, at, loop, x, sequence, body);
    case _ =>
  }

  lemma {:induction false} SeqSize(t: Tables, names: seq<string>, at: nat, loop: LoopInfo, first: Stmt, rest: Stmt)
    ensures |GenStmt(t, names, at, loop, Seq(first, rest))| == SizeStmt(names, loop.locals, Seq(first, rest))
    decreases Seq(first, rest), 0
  {
    hide *;
    SeqForm(t, names, at, loop, first, rest);
    SizeForms(names, loop.locals, Lit(Null), first, rest);
    StmtSize(t, names, at, loop, first);
    StmtSize(t, Declared(names, first), at + |GenStmt(t, names, at, loop, first)|, loop, rest);
  }

  lemma {:induction false} BlockSize(t: Tables, names: seq<string>, at: nat, loop: LoopInfo, body: Stmt)
    ensures |GenStmt(t, names, at, loop, Block(body))| == SizeStmt(names, loop.locals, Block(body))
    decreases Block(body), 0
  {
    hide *;
    BlockForm(t, names, at, loop, body);
    SizeForms(names, loop.locals, Lit(Null), body, Skip);
    StmtSize(t, names, at, loop, body);
  }

  lemma {:induction false} IfThenSize(t: Tables, names: seq<string>, at: nat, loop: LoopInfo, c: Expr, yes: Stmt)
    ensures |GenStmt(t, names, at, loop, IfThen(c, yes))| == SizeStmt(names, loop.locals, IfThen(c, yes))
    decreases IfThen(c, yes), 0
  {
    hide *;
    IfThenForm(t, names, at, loop, c, yes);
    SizeForms(names, loop.locals, c, yes, Skip);
    StmtSize(t, names, at + SizeExpr(names, c) + 3, loop, yes);
  }

  lemma {:induction false} IfElseSize(
      t: Tables, names: seq<string>, at: nat, loop: LoopInfo, c: Expr, yes: Stmt, no: Stmt)
    ensures |GenStmt(t, names, at, loop, IfElse(c, yes, no))| == SizeStmt(names, loop.locals, IfElse(c, yes, no))
    decreases IfElse(c, yes, no), 0
  {
    hide *;
    IfElseForm(t, names, at, loop, c, yes, no);
    SizeForms(names, loop.locals, c, yes, no);
    StmtSize(t, names, at + SizeExpr(names, c) + 3, loop, yes);
    StmtSize(t, names, at + SizeExpr(names, c) + 3 + SizeStmt(names, loop.locals, yes) + 3, loop, no);
  }

  lemma {:induction false} LoopSize(t: Tables, names: seq<string>, at: nat, c: Expr, body: Stmt)
    ensures |GenLoop(t, names, at, c, body)| == SizeLoop(names, c, body)
    decreases body, 3
  {
    hide *;
    LoopForm(t, names, at, c, body);
    LoopSizes(names, 0, c, body, []);
    StmtSize(t, names, at + SizeExpr(names, c) + 3, LoopInfo(at, |names|, To(at + SizeLoop(names, c, body))), body);
  }

  lemma {:induction false} ForInSize(
      t: Tables, names: seq<string>, at: nat, loop: LoopInfo, x: string, sequence: Expr, body: Stmt)
    ensures |GenStmt(t, names, at, loop, ForIn(x, sequence, body))|
            == SizeStmt(names, loop.locals, ForIn(x, sequence, body))
    decreases ForIn(x, sequence, body), 0
  {
    hide *;
    ForInForm(t, names, at, loop, x, sequence, body);
    LoopSizes(names, loop.locals, sequence, body, x);
    ForLoopSize(t, names, at + SizeExpr(names, sequence) + 1, x, body);
  }

  lemma {:induction false} ForLoopSize(t: Tables, names: seq<string>, at: nat, x: string, body: Stmt)
    ensures |GenForLoop(t, names, at, x, body)| == SizeForLoop(names, x, body)
    decreases body, 3
  {
    hide *;
    ForLoopForm(t, names, at, x, body);
    LoopSizes(names, 0, Lit(Null), body, x);
    StmtSize(t, ForNames(names, x), at + BodyOffset(names),
        LoopInfo(at, |names| + 2, To(at + SizeForLoop(names, x, body))), body);
  }
}
