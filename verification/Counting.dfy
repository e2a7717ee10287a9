/** The counter of the compiler at each instruction it emits, read from the states that
    the emitter goes through, is the one that Heights gives the instruction. */
module Counting {
  import opened Syntax
  import opened Semantics
  import opened Bytes
  import opened Bytecode
  import opened CodeGen
  import opened Interpreter
  import opened SimulateExpr
  import opened SimulateStmt
  import opened Slots
  import opened Correctness
  import opened Heights
  import opened Emission
  import opened Sequences

  // An instruction of [k] bytes, emitted in the state [u] where the height is [h].
  function Op(k: nat, h: int, u: Output): seq<Level> {
    Mark(k, h, u.slots)
  }

  // The instructions emitted for [e] from the state [u] on. Patching a jump later does
  // not change the counter.
  function LogExpr(u: Output, names: seq<string>, e: Expr, h: int): seq<Level>
    decreases e
  {
    match e
    case Lit(_) => Op(SizeExpr(names, e), h, u)
    case Variable(x) => Op(SizeLoad(names, x), h, u)
    case Assign(x, rhs) =>
      var v := u.(tables := NeedName(u.tables, names, x));
      LogExpr(v, names, rhs, h) + Op(if Innermost(names, x) >= 0 then 2 else 3, h + 1, AfterExpr(v, names, rhs))
    case Unary(_, a) => LogExpr(u, names, a, h) + Op(3, h + 1, AfterExpr(u, names, a))
    case Get(a, _) => LogExpr(u, names, a, h) + Op(3, h + 1, AfterExpr(u, names, a))
    case Binary(_, a, b) => LogTwo(u, names, e, a, b, h)
    case Set(a, _, b) => LogTwo(u, names, e, a, b, h)
    case And(a, b) => LogLogical(u, names, e, CODE_AND, a, b, h)
    case Or(a, b) => LogLogical(u, names, e, CODE_OR, a, b, h)
    case Cond(c, y, z) =>
      var u1 := AfterExpr(u, names, c);
      var u2 := AfterExpr(EmitJump(u1, CODE_JUMP_IF), names, y);
      LogExpr(u, names, c, h) + Op(3, h + 1, u1) + LogExpr(EmitJump(u1, CODE_JUMP_IF), names, y, h)
      + Op(3, h + 1, u2) + LogExpr(EmitJump(u2, CODE_JUMP), names, z, h)
  }

  function LogTwo(u: Output, names: seq<string>, ghost e: Expr, a: Expr, b: Expr, h: int): seq<Level>
    requires a < e && b < e
    decreases e, 0
  {
    var u1 := AfterExpr(u, names, a);
    LogExpr(u, names, a, h) + LogExpr(u1, names, b, h + 1) + Op(3, h + 2, AfterExpr(u1, names, b))
  }

  function LogLogical(u: Output, names: seq<string>, ghost e: Expr, op: byte, a: Expr, b: Expr, h: int): seq<Level>
    requires a < e && b < e
    decreases e, 0
  {
    var u1 := AfterExpr(u, names, a);
    LogExpr(u, names, a, h) + Op(3, h + 1, u1) + LogExpr(EmitJump(u1, op), names, b, h)
  }

  // The instructions emitted for [s].
  function LogStmt(u: Output, names: seq<string>, loop: LoopInfo, s: Stmt): seq<Level>
    decreases s, 0
  {
    var h := |names|;
    match s
    case Skip => []
    case Seq(a, b) => LogStmt(u, names, loop, a) + LogStmt(AfterStmt(u, names, loop, a), Declared(names, a), loop, b)
    case Evaluate(e) => LogExpr(u, names, e, h) + Op(1, h + 1, AfterExpr(u, names, e))
    case Declare(_, init) => LogExpr(u, names, init, h)
    case Block(body) => LogBlock(u, names, loop, body)
    case IfThen(c, yes) => LogTest(u, names, c) + LogStmt(Tested(u, names, c), names, loop, yes)
    case IfElse(c, yes, no) =>
      var u2 := AfterStmt(Tested(u, names, c), names, loop, yes);
      LogTest(u, names, c) + (LogStmt(Tested(u, names, c), names, loop, yes) + Op(3, h, u2)
                              + LogStmt(EmitJump(u2, CODE_JUMP), names, loop, no))
    case Loop(c, body) =>
      var inner := LoopInfo(|u.code|, h, Pending);
      LogTest(u, names, c)
          + (LogStmt(Tested(u, names, c), names, inner, body)
              + Op(3, h, AfterStmt(Tested(u, names, c), names, inner, body)))
    case ForIn(x, sequence, body) =>
      var u1 := ForHead(u, names, sequence);
      LogExpr(u, names, sequence, h) + Op(1, h + 1, AfterExpr(u, names, sequence)) + LogFor(u1, names, x, body)
      + LevelsPops(2, h + 2, Emit(ForBody(u1, names, x, body), CODE_LOOP, [0, 0]).slots)
    case BreakLoop => LogEscape(u, h, loop.locals)
    case ContinueLoop => LogEscape(u, h, loop.locals)
    case Give(e) => LogExpr(u, names, e, h) + Op(1, h + 1, AfterExpr(u, names, e))
  }

  // The state after a condition and its jump.
  function Tested(u: Output, names: seq<string>, c: Expr): Output {
    EmitJump(AfterExpr(u, names, c), CODE_JUMP_IF)
  }

  function LogTest(u: Output, names: seq<string>, c: Expr): seq<Level> {
    LogExpr(u, names, c, |names|) + Op(3, |names| + 1, AfterExpr(u, names, c))
  }

  // The pops of discarded locals do not change the counter.
  function LogEscape(u: Output, h: nat, kept: nat): seq<Level> {
    LevelsPops(h - kept, h, u.slots) + Op(3, h - |Pops(h - kept)|, Discard(u, h - kept))
  }

  function LogBlock(u: Output, names: seq<string>, loop: LoopInfo, body: Stmt): seq<Level>
    decreases body, 1
  {
    var after := |Declared(names, body)|;
    LogStmt(u, names, loop, body) + LevelsPops(after - |names|, after, AfterStmt(u, names, loop, body).slots)
  }

  function LogLoads(u: Output, k: nat, h: int): seq<Level> {
    var u1 := EmitLoadLocal(u, k);
    Op(|GenLoadLocal(k)|, h, u) + Op(|GenLoadLocal(k + 1)|, h + 1, u1) + Op(3, h + 2, EmitLoadLocal(u1, k + 1))
  }

  // The loop of a for statement, which starts in the state [u].
  function LogFor(u: Output, names: seq<string>, x: string, body: Stmt): seq<Level>
    decreases body, 1
  {
    var k, h, inner, loop := |names|, |names| + 2, ForNames(names, x), LoopInfo(|u.code|, |names| + 2, Pending);
    var called := EmitCall(EmitLoadLocal(EmitLoadLocal(u, k), k + 1), 1, ITERATE);
    var item := EmitItem(ForTest(u, k), k);
    LogLoads(u, k, h) + Op(2, h + 1, called) + Op(3, h + 1, EmitAdvance(u, k)) + LogLoads(ForTest(u, k), k, h)
    + LogStmt(item, inner, loop, body) + Op(1, h + 1, AfterStmt(item, inner, loop, body))
      + Op(3, h, ForBody(u, names, x, body))
  }

  // ----- They are the levels -----

  lemma {:induction false} LogExprIs(u: Output, names: seq<string>, e: Expr, h: int)
    ensures LogExpr(u, names, e, h) == LevelsExpr(names, e, h, u.slots)
    decreases e
  {
    hide GenExpr, GrowExpr, PeakExpr, NetExpr, SizeExpr, SizeLoad, Mark, Innermost, NeedName, Short;
    match e
    case Lit(_) =>
    case Variable(_) =>
    case Assign(x, rhs) => LogExprIs(u.(tables := NeedName(u.tables, names, x)), names, rhs, h);
    case Unary(_, a) => LogExprIs(u, names, a, h);
    case Get(a, _) => LogExprIs(u, names, a, h);
    case Binary(_, a, b) => LogTwoIs(u, names, e, a, b, h);
    case Set(a, _, b) => LogTwoIs(u, names, e, a, b, h);
    case And(a, b) => LogLogicalIs(u, names, e, CODE_AND, a, b, h);
    case Or(a, b) => LogLogicalIs(u, names, e, CODE_OR, a, b, h);
    case Cond(c, y, z) => LogCondIs(u, names, c, y, z, h);
  }

  lemma {:induction false} LogTwoIs(u: Output, names: seq<string>, e: Expr, a: Expr, b: Expr, h: int)
    requires a < e && b < e
    ensures var n := u.slots;
            LogTwo(u, names, e, a, b, h)
            == LevelsExpr(names, a, h, n) + LevelsExpr(names, b, h + 1, n + NetExpr(a))
               + Mark(3, h + 2, n + NetExpr(a) + NetExpr(b))
    decreases e, 0
  {
    hide LogExpr, LevelsExpr, GenExpr, GrowExpr, PeakExpr, NetExpr, Mark;
    LogExprIs(u, names, a, h);
    LogExprIs(AfterExpr(u, names, a), names, b, h + 1);
  }

  lemma {:induction false} LogLogicalIs(u: Output, names: seq<string>, e: Expr, op: byte, a: Expr, b: Expr, h: int)
    requires a < e && b < e && (op == CODE_AND || op == CODE_OR)
    ensures var n := u.slots + NetExpr(a);
            LogLogical(u, names, e, op, a, b, h)
                == LevelsExpr(names, a, h, u.slots) + Mark(3, h + 1, n) + LevelsExpr(names, b, h, n - 1)
    decreases e, 0
  {
    hide LogExpr, LevelsExpr, GenExpr, GrowExpr, PeakExpr, NetExpr, Mark;
    LogExprIs(u, names, a, h);
    LogExprIs(EmitJump(AfterExpr(u, names, a), op), names, b, h);
  }

  lemma {:induction false} LogCondIs(u: Output, names: seq<string>, c: Expr, y: Expr, z: Expr, h: int)
    ensures LogExpr(u, names, Cond(c, y, z), h) == LevelsExpr(names, Cond(c, y, z), h, u.slots)
    decreases Cond(c, y, z), 0
  {
    hide *;
    var u1 := AfterExpr(u, names, c);
    var u2 := AfterExpr(EmitJump(u1, CODE_JUMP_IF), names, y);
    CondLevels(names, c, y, z, h, u.slots);
    LogCondForm(u, names, c, y, z, h);
    LogExprIs(u, names, c, h);
    LogExprIs(EmitJump(u1, CODE_JUMP_IF), names, y, h);
    LogExprIs(EmitJump(u2, CODE_JUMP), names, z, h);
    SlotsExpr(u, names, c);
    SlotsExpr(EmitJump(u1, CODE_JUMP_IF), names, y);
    SlotsJump(u1);
    SlotsJump(u2);
    OpIs(3, h + 1, u1);
    OpIs(3, h + 1, u2);
  }

  lemma LogCondForm(u: Output, names: seq<string>, c: Expr, y: Expr, z: Expr, h: int)
    ensures var u1 := AfterExpr(u, names, c);
            var u2 := AfterExpr(EmitJump(u1, CODE_JUMP_IF), names, y);
            LogExpr(u, names, Cond(c, y, z), h)
            == LogExpr(u, names, c, h) + Op(3, h + 1, u1) + LogExpr(EmitJump(u1, CODE_JUMP_IF), names, y, h)
               + Op(3, h + 1, u2) + LogExpr(EmitJump(u2, CODE_JUMP), names, z, h)
  {
    hide Op, AfterExpr, EmitJump;
  }

  lemma OpIs(k: nat, h: int, u: Output)
    ensures Op(k, h, u) == Mark(k, h, u.slots)
  {
    hide Mark;
  }

  lemma SlotsExpr(u: Output, names: seq<string>, e: Expr)
    ensures AfterExpr(u, names, e).slots == u.slots + NetExpr(e)
  {
    hide GenExpr, GrowExpr, PeakExpr, NetExpr;
  }

  lemma SlotsStmt(u: Output, names: seq<string>, loop: LoopInfo, s: Stmt)
    ensures AfterStmt(u, names, loop, s).slots == u.slots + NetStmt(names, s)
  {
    hide GenStmt, GrowStmt, PeakStmt, NetStmt;
  }

  lemma SlotsJump(u: Output)
    ensures EmitJump(u, CODE_JUMP).slots == u.slots && EmitJump(u, CODE_JUMP_IF).slots == u.slots - 1
  {
  }

  lemma WellFormedIn(s: Stmt)
    requires WellFormed(s)
    ensures s.Block? || s.Loop? || s.ForIn? ==> WellFormed(s.body)
    ensures s.IfThen? || s.IfElse? ==> WellFormed(s.yes)
    ensures s.IfElse? ==> WellFormed(s.no)
  {
  }

  lemma {:induction false} LogStmtIs(u: Output, names: seq<string>, loop: LoopInfo, s: Stmt)
    requires WellFormed(s)
    ensures LogStmt(u, names, loop, s) == LevelsStmt(names, loop.locals, s, u.slots)
    decreases s, 1
  {
    hide *;
    match s
    case Skip => LogPlainIs(u, names, loop);
    case Seq(a, b) =>
      LogSeqForm(u, names, loop, a, b);
      SeqLevels(names, loop.locals, a, b, u.slots);
      SlotsStmt(u, names, loop, a);
      LogStmtIs(u, names, loop, a);
      LogStmtIs(AfterStmt(u, names, loop, a), Declared(names, a), loop, b);
    case Evaluate(e) => LogSimpleIs(u, names, loop, e, []);
    case Declare(x, e) => LogSimpleIs(u, names, loop, e, x);
    case Give(e) => LogSimpleIs(u, names, loop, e, []);
    case Block(body) => LogBlockIs(u, names, loop, body);
    case IfThen(c, yes) => LogIfThenIs(u, names, loop, c, yes);
    case IfElse(c, yes, no) => LogIfElseIs(u, names, loop, c, yes, no);
    case Loop(c, body) => LogLoopIs(u, names, loop, c, body);
    case ForIn(x, sequence, body) => LogForInIs(u, names, loop, x, sequence, body);
    case BreakLoop => LogPlainIs(u, names, loop);
    case ContinueLoop => LogPlainIs(u, names, loop);
  }

  lemma LogPlainIs(u: Output, names: seq<string>, loop: LoopInfo)
    ensures LogStmt(u, names, loop, Skip) == LevelsStmt(names, loop.locals, Skip, u.slots)
    ensures LogStmt(u, names, loop, BreakLoop) == LevelsStmt(names, loop.locals, BreakLoop, u.slots)
    ensures LogStmt(u, names, loop, ContinueLoop) == LevelsStmt(names, loop.locals, ContinueLoop, u.slots)
  {
    hide LevelsPops, Mark, Pops;
  }

  lemma LogSeqForm(u: Output, names: seq<string>, loop: LoopInfo, a: Stmt, b: Stmt)
    requires WellFormed(Seq(a, b))
    ensures WellFormed(a) && WellFormed(b)
    ensures LogStmt(u, names, loop, Seq(a, b))
            == LogStmt(u, names, loop, a) + LogStmt(AfterStmt(u, names, loop, a), Declared(names, a), loop, b)
  {
    hide AfterStmt, Declared;
  }

  lemma {:induction false} LogSimpleIs(u: Output, names: seq<string>, loop: LoopInfo, e: Expr, x: string)
    ensures LogStmt(u, names, loop, Evaluate(e)) == LevelsStmt(names, loop.locals, Evaluate(e), u.slots)
    ensures LogStmt(u, names, loop, Give(e)) == LevelsStmt(names, loop.locals, Give(e), u.slots)
    ensures LogStmt(u, names, loop, Declare(x, e)) == LevelsStmt(names, loop.locals, Declare(x, e), u.slots)
  {
    SimpleLevels(names, loop.locals, e, x, u.slots);
    LogExprIs(u, names, e, |names|);
    SlotsExpr(u, names, e);
    hide LogExpr, LevelsExpr, LevelsStmt, AfterExpr, NetExpr, Mark;
  }

  lemma {:induction false} LogTestIs(u: Output, names: seq<string>, c: Expr)
    ensures LogTest(u, names, c) == LevelsTest(names, c, u.slots)
            && Tested(u, names, c).slots == u.slots + NetExpr(c) - 1
  {
    LogExprIs(u, names, c, |names|);
    SlotsExpr(u, names, c);
    SlotsJump(AfterExpr(u, names, c));
    hide LogExpr, LevelsExpr, AfterExpr, EmitJump, NetExpr, Mark;
  }

  lemma {:induction false} LogBlockIs(u: Output, names: seq<string>, loop: LoopInfo, body: Stmt)
    requires WellFormed(Block(body))
    ensures LogStmt(u, names, loop, Block(body)) == LevelsStmt(names, loop.locals, Block(body), u.slots)
    decreases Block(body), 0
  {
    hide *;
    WellFormedIn(Block(body));
    BlockLevels(names, loop.locals, body, u.slots);
    LogStmtIs(u, names, loop, body);
    SlotsStmt(u, names, loop, body);
    LogBlockForm(u, names, loop, body);
  }

  lemma LogBlockForm(u: Output, names: seq<string>, loop: LoopInfo, body: Stmt)
    ensures var after := |Declared(names, body)|;
            LogStmt(u, names, loop, Block(body))
            == LogStmt(u, names, loop, body) + LevelsPops(after - |names|, after, AfterStmt(u, names, loop, body).slots)
  {
    hide *;
    LogBlockUnfolds(u, names, loop, body);
    LogBlockParts(u, names, loop, body);
  }

  lemma LogBlockUnfolds(u: Output, names: seq<string>, loop: LoopInfo, body: Stmt)
    ensures LogStmt(u, names, loop, Block(body)) == LogBlock(u, names, loop, body)
  {
    hide LogBlock;
  }

  lemma LogBlockParts(u: Output, names: seq<string>, loop: LoopInfo, body: Stmt)
    ensures var after := |Declared(names, body)|;
            LogBlock(u, names, loop, body)
            == LogStmt(u, names, loop, body) + LevelsPops(after - |names|, after, AfterStmt(u, names, loop, body).slots)
  {
    hide LogStmt, LevelsPops, AfterStmt, Declared;
  }

  lemma {:induction false} LogIfThenIs(u: Output, names: seq<string>, loop: LoopInfo, c: Expr, yes: Stmt)
    requires WellFormed(IfThen(c, yes))
    ensures LogStmt(u, names, loop, IfThen(c, yes)) == LevelsStmt(names, loop.locals, IfThen(c, yes), u.slots)
    decreases IfThen(c, yes), 0
  {
    hide *;
    WellFormedIn(IfThen(c, yes));
    IfThenLevels(names, loop.locals, c, yes, u.slots);
    LogTestIs(u, names, c);
    LogStmtIs(Tested(u, names, c), names, loop, yes);
    LogIfThenForm(u, names, loop, c, yes);
  }

  lemma LogIfThenForm(u: Output, names: seq<string>, loop: LoopInfo, c: Expr, yes: Stmt)
    ensures LogStmt(u, names, loop, IfThen(c, yes))
            == LogTest(u, names, c) + LogStmt(Tested(u, names, c), names, loop, yes)
  {
    hide LogTest, Tested;
  }

  lemma {:induction false} LogIfElseIs(u: Output, names: seq<string>, loop: LoopInfo, c: Expr, yes: Stmt, no: Stmt)
    requires WellFormed(IfElse(c, yes, no))
    ensures LogStmt(u, names, loop, IfElse(c, yes, no)) == LevelsStmt(names, loop.locals, IfElse(c, yes, no), u.slots)
    decreases IfElse(c, yes, no), 0
  {
    hide *;
    WellFormedIn(IfElse(c, yes, no));
    var u1 := Tested(u, names, c);
    var u2 := AfterStmt(u1, names, loop, yes);
    IfElseLevels(names, loop.locals, c, yes, no, u.slots);
    LogTestIs(u, names, c);
    LogStmtIs(u1, names, loop, yes);
    SlotsStmt(u1, names, loop, yes);
    SlotsJump(u2);
    LogStmtIs(EmitJump(u2, CODE_JUMP), names, loop, no);
    OpIs(3, |names|, u2);
    LogIfElseForm(u, names, loop, c, yes, no);
  }

  lemma LogIfElseForm(u: Output, names: seq<string>, loop: LoopInfo, c: Expr, yes: Stmt, no: Stmt)
    ensures var u2 := AfterStmt(Tested(u, names, c), names, loop, yes);
            LogStmt(u, names, loop, IfElse(c, yes, no))
            == LogTest(u, names, c) + (LogStmt(Tested(u, names, c), names, loop, yes) + Op(3, |names|, u2)
                                       + LogStmt(EmitJump(u2, CODE_JUMP), names, loop, no))
  {
    hide LogTest, Tested, Op, AfterStmt, EmitJump;
  }

  lemma {:induction false} LogLoopIs(u: Output, names: seq<string>, loop: LoopInfo, c: Expr, body: Stmt)
    requires WellFormed(Loop(c, body))
    ensures LogStmt(u, names, loop, Loop(c, body)) == LevelsStmt(names, loop.locals, Loop(c, body), u.slots)
    decreases Loop(c, body), 0
  {
    hide *;
    WellFormedIn(Loop(c, body));
    var u1, inner := Tested(u, names, c), LoopInfo(|u.code|, |names|, Pending);
    LoopLevels(names, loop.locals, c, body, u.slots);
    LogTestIs(u, names, c);
    LogStmtIs(u1, names, inner, body);
    SlotsStmt(u1, names, inner, body);
    OpIs(3, |names|, AfterStmt(u1, names, inner, body));
    LogLoopForm(u, names, loop, c, body);
  }

  lemma LogLoopForm(u: Output, names: seq<string>, loop: LoopInfo, c: Expr, body: Stmt)
    ensures var u1, inner := Tested(u, names, c), LoopInfo(|u.code|, |names|, Pending);
            LogStmt(u, names, loop, Loop(c, body))
            == LogTest(u, names, c)
               + (LogStmt(u1, names, inner, body) + Op(3, |names|, AfterStmt(u1, names, inner, body)))
  {
    hide LogTest, Tested, Op, AfterStmt;
  }

  lemma {:induction false} LogForInIs(
      u: Output, names: seq<string>, loop: LoopInfo, x: string, sequence: Expr, body: Stmt)
    requires WellFormed(ForIn(x, sequence, body))
    ensures LogStmt(u, names, loop, ForIn(x, sequence, body))
            == LevelsStmt(names, loop.locals, ForIn(x, sequence, body), u.slots)
    decreases ForIn(x, sequence, body), 0
  {
    hide *;
    WellFormedIn(ForIn(x, sequence, body));
    var u1 := ForHead(u, names, sequence);
    ForInLevels(names, loop.locals, x, sequence, body, u.slots);
    LogExprIs(u, names, sequence, |names|);
    SlotsExpr(u, names, sequence);
    SlotsHead(u, names, sequence);
    LogForIs(u1, names, x, body);
    OpIs(1, |names| + 1, AfterExpr(u, names, sequence));
    LogForInForm(u, names, loop, x, sequence, body);
  }

  lemma SlotsHead(u: Output, names: seq<string>, sequence: Expr)
    ensures ForHead(u, names, sequence).slots == u.slots + NetExpr(sequence) + 1
  {
    hide AfterExpr, NetExpr;
    SlotsExpr(u, names, sequence);
  }

  lemma LogForInForm(u: Output, names: seq<string>, loop: LoopInfo, x: string, sequence: Expr, body: Stmt)
    ensures var u1 := ForHead(u, names, sequence);
            LogStmt(u, names, loop, ForIn(x, sequence, body))
            == LogExpr(u, names, sequence, |names|) + Op(1, |names| + 1, AfterExpr(u, names, sequence))
               + LogFor(u1, names, x, body)
               + LevelsPops(2, |names| + 2, ForBody(u1, names, x, body).slots)
  {
    hide LogExpr, Op, AfterExpr, LogFor, LevelsPops, ForBody, ForHead;
  }

  lemma {:induction false} LogForIs(u: Output, names: seq<string>, x: string, body: Stmt)
    requires WellFormed(body)
    ensures LogFor(u, names, x, body) == LevelsFor(names, x, body, u.slots)
    ensures ForBody(u, names, x, body).slots == u.slots + NetStmt(ForNames(names, x), body)
    decreases body, 2
  {
    hide *;
    var k, h, inner, loop := |names|, |names| + 2, ForNames(names, x), LoopInfo(|u.code|, |names| + 2, Pending);
    var called := EmitCall(EmitLoadLocal(EmitLoadLocal(u, k), k + 1), 1, ITERATE);
    var item := EmitItem(ForTest(u, k), k);
    ForLevels(names, x, body, u.slots);
    SlotsFor(u, names, x, body);
    LogLoadsIs(u, k, h);
    LogLoadsIs(ForTest(u, k), k, h);
    LogStmtIs(item, inner, loop, body);
    OpIs(2, h + 1, called);
    OpIs(3, h + 1, EmitAdvance(u, k));
    OpIs(1, h + 1, AfterStmt(item, inner, loop, body));
    OpIs(3, h, ForBody(u, names, x, body));
    LogForForm(u, names, x, body);
  }

  // The counter on the way through a for statement.
  lemma SlotsFor(u: Output, names: seq<string>, x: string, body: Stmt)
    ensures var k, inner, loop, n := |names|, ForNames(names, x), LoopInfo(|u.code|, |names| + 2, Pending), u.slots;
            var item := EmitItem(ForTest(u, k), k);
            && EmitCall(EmitLoadLocal(EmitLoadLocal(u, k), k + 1), 1, ITERATE).slots == n + 1 == EmitAdvance(u, k).slots
            && ForTest(u, k).slots == n && item.slots == n + 1
            && AfterStmt(item, inner, loop, body).slots == n + 1 + NetStmt(inner, body)
            && ForBody(u, names, x, body).slots == n + NetStmt(inner, body)
  {
    hide AfterStmt, NetStmt, ForNames, IndexOf, Short;
    var k := |names|;
    SlotsStmt(EmitItem(ForTest(u, k), k), ForNames(names, x), LoopInfo(|u.code|, |names| + 2, Pending), body);
  }

  lemma LogLoadsIs(u: Output, k: nat, h: int)
    ensures LogLoads(u, k, h) == LevelsLoads(k, h, u.slots)
  {
    hide Mark, GenLoadLocal;
  }

  lemma LogForForm(u: Output, names: seq<string>, x: string, body: Stmt)
    ensures var k, h, inner, loop := |names|, |names| + 2, ForNames(names, x), LoopInfo(|u.code|, |names| + 2, Pending);
            var called := EmitCall(EmitLoadLocal(EmitLoadLocal(u, k), k + 1), 1, ITERATE);
            var item := EmitItem(ForTest(u, k), k);
            LogFor(u, names, x, body)
            == LogLoads(u, k, h) + Op(2, h + 1, called) + Op(3, h + 1, EmitAdvance(u, k))
               + LogLoads(ForTest(u, k), k, h)
               + LogStmt(item, inner, loop, body) + Op(1, h + 1, AfterStmt(item, inner, loop, body))
                 + Op(3, h, ForBody(u, names, x, body))
  {
    hide LogLoads, Op, LogStmt, AfterStmt, ForBody, EmitCall, EmitLoadLocal, EmitItem, EmitAdvance, ForTest, ForNames;
  }

  // ----- Whole functions -----

  // The instructions of a function, from the state in which its compiler starts.
  function LogBody(t: Tables, names: seq<string>, body: Body): seq<Level> {
    var u := Output([], t, 1, 1);
    match body
    case Result(e) =>
      var u1 := AfterExpr(u, names, e);
      LogExpr(u, names, e, |names|) + Op(1, |names| + 1, u1) + Op(1, |names| + 1, Emit(u1, CODE_RETURN, []))
    case Statements(s) =>
      var h, u1 := |Declared(names, s)|, AfterStmt(u, names, NO_LOOP, s);
      var u2 := Emit(u1, CODE_NULL, []);
      LogStmt(u, names, NO_LOOP, s) + Op(1, h, u1) + Op(1, h + 1, u2) + Op(1, h + 1, Emit(u2, CODE_RETURN, []))
  }

  lemma LogBodyIs(t: Tables, names: seq<string>, body: Body)
    requires body.Statements? ==> WellFormed(body.s)
    ensures LogBody(t, names, body) == Levels(names, body)
  {
    hide LogExpr, LogStmt, LevelsExpr, LevelsStmt, AfterExpr, AfterStmt, NetExpr, NetStmt, Mark, Declared;
    var u := Output([], t, 1, 1);
    match body
    case Result(e) =>
      LogExprIs(u, names, e, |names|);
      SlotsExpr(u, names, e);
    case Statements(s) =>
      LogStmtIs(u, names, NO_LOOP, s);
      SlotsStmt(u, names, NO_LOOP, s);
  }

  // At every state of every run, the height above the arguments is below what the
  // counter of the compiler was when it emitted the instruction that starts there.
  lemma {:induction false} CounterKnown(
      m: Machine, t: Tables, env: Env, w: World, body: Body, k: nat, s: State, bound: nat)
    requires Compiled(m, env.names, body) && env.names != [] && Reach(m, State(0, env.values, w), k, s, bound)
    ensures var log := LogBody(t, env.names, body);
            && s.ip < |log| && log[s.ip].Start? && |s.stack| == log[s.ip].height
            && |s.stack| - |env.names| < log[s.ip].slots <= MaxSlots(env.names, body)
  {
    BodyWellFormed(m, env.names, body);
    hide *;
    LogBodyIs(t, env.names, body);
    HeightKnown(m, env, w, body, k, s, bound);
  }

  lemma BodyWellFormed(m: Machine, names: seq<string>, body: Body)
    requires Compiled(m, names, body)
    ensures body.Statements? ==> WellFormed(body.s)
  {
    hide GenBody, CoversStmt, JumpsFitStmt, LocalsFit, WellFormed;
  }
}
