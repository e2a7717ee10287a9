/** Where the limits that the compiler does not check lie: which jumps back and which
    method symbols are read as they were written, which locals are in their array, and
    programs that are accepted although they are beyond. */
module Limits {
  import opened Syntax
  import opened Semantics
  import opened Bytes
  import opened Bytecode
  import opened CodeGen
  import opened Interpreter
  import opened SimulateExpr
  import opened SimulateStmt
  import opened Correctness
  import opened LoopPatching
  import opened Emission
  import opened Compilation
  import opened Programs
  import opened Sequences

  // ----- Jumps back -----

  // The jump back at [i] goes to [target].
  predicate JumpsBack(code: seq<byte>, i: nat, target: int) {
    i + 3 <= |code| && code[i] == CODE_LOOP && i + 3 - ReadShort(code, i + 1) == target
  }

  // What an operand reads as.
  lemma OperandAt(code: seq<byte>, at: nat, op: byte, n: nat)
    requires At(code, at, [op] + Short(n))
    ensures at + 3 <= |code| && code[at] == op && ReadShort(code, at + 1) == n % 0x1_0000
  {
    AtByte(code, at, [op] + Short(n), 0);
    AtByte(code, at, [op] + Short(n), 1);
    AtByte(code, at, [op] + Short(n), 2);
    hide At;
    TwoDigits(n);
  }

  lemma TwoDigits(n: nat)
    ensures n / 256 % 256 * 256 + n % 256 == n % 0x1_0000
  {
    var q := n / 256;
    var s := q / 256;
    assert n == 0x1_0000 * s + (256 * (q % 256) + n % 256);
  }

  lemma JumpBackAt(code: seq<byte>, i: nat, target: nat)
    requires target <= i + 3 && At(code, i, GenJump(CODE_LOOP, i + 3 - target))
    ensures JumpsBack(code, i, i + 3 - (i + 3 - target) % 0x1_0000)
    ensures JumpsBack(code, i, target) <==> i + 3 - target < 0x1_0000
  {
    OperandAt(code, i, CODE_LOOP, i + 3 - target);
  }

  // The jump at the end of a while statement lands where the statement starts exactly
  // when all of its code is shorter than 2^16 bytes. What is checked is only the jump
  // over the body.
  lemma LoopLands(code: seq<byte>, t: Tables, names: seq<string>, at: nat, loop: LoopInfo, c: Expr, body: Stmt)
    requires At(code, at, GenStmt(t, names, at, loop, Loop(c, body)))
    ensures var size := SizeLoop(names, c, body);
            && size >= 3 && (JumpsBack(code, at + size - 3, at) <==> size < 0x1_0000)
            && JumpsBack(code, at + size - 3, at + size - size % 0x1_0000)
  {
    hide *;
    var size := SizeLoop(names, c, body);
    var b := GenStmt(t, names, at + SizeExpr(names, c) + 3, LoopInfo(at, |names|, To(at + size)), body);
    LoopCode(t, names, at, loop, c, body);
    LoopForm(t, names, at, c, body);
    LoopSize(t, names, at, c, body);
    AtConcat(code, at, GenExpr(t, names, c) + GenJump(CODE_JUMP_IF, |b| + 3) + b, GenJump(CODE_LOOP, size));
    JumpBackAt(code, at + size - 3, at);
  }

  lemma LoopCode(t: Tables, names: seq<string>, at: nat, loop: LoopInfo, c: Expr, body: Stmt)
    ensures GenStmt(t, names, at, loop, Loop(c, body)) == GenLoop(t, names, at, c, body)
  {
    hide GenLoop;
  }

  // The same for a for statement, whose loop starts after the sequence and the two
  // hidden locals.
  lemma ForLands(
      code: seq<byte>, t: Tables, names: seq<string>, at: nat, loop: LoopInfo, x: string, sequence: Expr, body: Stmt)
    requires At(code, at, GenStmt(t, names, at, loop, ForIn(x, sequence, body)))
    ensures var start, size := at + SizeExpr(names, sequence) + 1, SizeForLoop(names, x, body);
            && size >= 3 && (JumpsBack(code, start + size - 3, start) <==> size < 0x1_0000)
            && JumpsBack(code, start + size - 3, start + size - size % 0x1_0000)
  {
    hide *;
    var start, size := at + SizeExpr(names, sequence) + 1, SizeForLoop(names, x, body);
    var head, rest := GenExpr(t, names, sequence) + [CODE_NULL], GenForLoop(t, names, start, x, body);
    ForInForm(t, names, at, loop, x, sequence, body);
    ForLoopSize(t, names, start, x, body);
    AtConcat3(code, at, head, rest, Pops(2));
    ForLoopForm(t, names, start, x, body);
    var item := GenItem(t, |names|);
    var b := GenStmt(t, ForNames(names, x), start + BodyOffset(names), LoopInfo(start, |names| + 2, To(start + size)),
        body);
    var before := GenAdvance(t, |names|) + GenJump(CODE_JUMP_IF, |item| + |b| + 1 + 3) + (item + b + [CODE_POP]);
    AtConcat(code, start, before, GenJump(CODE_LOOP, size));
    JumpBackAt(code, start + size - 3, start);
  }

  // "continue" lands where its loop starts exactly when it is less than 2^16 bytes away.
  lemma ContinueLands(code: seq<byte>, t: Tables, names: seq<string>, at: nat, loop: LoopInfo)
    requires At(code, at, GenStmt(t, names, at, loop, ContinueLoop)) && loop.start <= at
    ensures var i := at + |Pops(|names| - loop.locals)|;
            JumpsBack(code, i, loop.start) <==> i + 3 - loop.start < 0x1_0000
  {
    hide *;
    var pops := Pops(|names| - loop.locals);
    SimpleForms(t, names, at, loop, ContinueLoop);
    AtConcat(code, at, pops, GenJump(CODE_LOOP, at + |pops| + 3 - loop.start));
    JumpBackAt(code, at + |pops|, loop.start);
  }

  // "while (!!...!null) {}" with a condition of 65536 bytes is accepted, because the jump
  // over its body is short. It should run for ever, but its jump back goes to its own
  // test, which takes the receiver for the condition, and then finds nothing.
  lemma LongLoopFails(env: Env, w: World, c: Expr)
    requires env.names == ["this"] && !env.values[0].Falsy() && c == Negations(21845)
    ensures var names, s := ["this"], Loop(c, Block(Skip));
            var t := GrowStmt(NOTHING, names, s);
            && AcceptsStmt(NOTHING, names, ParameterDepths(names), 0, false, 0, s) && WellFormed(s)
            && (forall fuel: nat :: EvalBody(WrenNot, fuel, env, w, Statements(s)).OutOfFuel?)
            && Returns(Machine(GenBody(t, names, Statements(s)), t, WrenNot), env, w, Stuck)
  {
    hide *;
    var names, s := ["this"], Loop(c, Block(Skip));
    var t := GrowStmt(NOTHING, names, s);
    var m := Machine(GenBody(t, names, Statements(s)), t, WrenNot);
    NegationsSize(21845, NOTHING, names);
    NegationsAre(21845, env, w);
    EmptyLoop(names, c);
    forall fuel: nat ensures EvalBody(WrenNot, fuel, env, w, Statements(s)).OutOfFuel? {
      EmptyLoopRuns(fuel, env, w, c);
      EvalBodyIs(WrenNot, fuel, env, w, Statements(s));
      LoopIsLoop(WrenNot, fuel, env, w, c);
      NotNormal(EvalStmt(WrenNot, fuel, env, w, s));
    }
    EmptyLoopCode(m.code, t, names, c);
    ConditionReady(m, c);
    var k := SimExpr(m, env, w, 0, c, [], 3);
    Evaluated(m, env, w, c, k);
    OneValue(env);
    TestAgain(m, w, env.values[0]);
    ReachEnds(m, State(0, env.values, w), k, State(0x1_0000, env.values + [True], w), 4, Stuck, 3);
    EndsReturns(m, env, w, Stuck, k + 4, 3);
  }

  lemma EmptyLoop(names: seq<string>, c: Expr)
    requires SizeExpr(names, c) == 0x1_0000 && AcceptsExpr(NOTHING, names, c)
    ensures var s := Loop(c, Block(Skip));
            && AcceptsStmt(NOTHING, names, ParameterDepths(names), 0, false, 0, s) && WellFormed(s)
            && SizeLoop(names, c, Block(Skip)) == 0x1_0006 && GrowStmt(NOTHING, names, s) == GrowExpr(NOTHING, names, c)
  {
    hide SizeExpr, AcceptsExpr, GrowExpr;
  }

  lemma {:induction false} EmptyLoopRuns(fuel: nat, env: Env, w: World, c: Expr)
    requires EvalExpr(WrenNot, env, w, c) == Value(env, w, True)
    ensures EvalLoop(WrenNot, fuel, env, w, c, Block(Skip)) == OutOfFuel
    decreases fuel
  {
    hide EvalExpr;
    LoopEval(WrenNot, fuel, env, w, c, Block(Skip));
    if fuel > 0 {
      EmptyLoopRuns(fuel - 1, env, w, c);
      BlockEval(WrenNot, fuel, env, w, Skip);
      assert Cut(env, |env.names|) == env;
    }
  }

  lemma LoopIsLoop(calls: Calls, fuel: nat, env: Env, w: World, c: Expr)
    ensures EvalStmt(calls, fuel, env, w, Loop(c, Block(Skip))) == EvalLoop(calls, fuel, env, w, c, Block(Skip))
  {
    hide EvalLoop;
  }

  lemma NotNormal(o: Outcome)
    ensures o == OutOfFuel ==> o.OutOfFuel? && !o.Normal?
  {
  }

  // The code of the loop: the condition, its jump, and the jump back.
  lemma EmptyLoopCode(code: seq<byte>, t: Tables, names: seq<string>, c: Expr)
    requires SizeExpr(names, c) == 0x1_0000 && SizeLoop(names, c, Block(Skip)) == 0x1_0006
    requires code == GenBody(t, names, Statements(Loop(c, Block(Skip))))
    ensures At(code, 0, GenExpr(t, names, c)) && At(code, 0x1_0000, GenJump(CODE_JUMP_IF, 3))
    ensures JumpsBack(code, 0x1_0003, 0x1_0000)
  {
    hide *;
    var s, loop := Loop(c, Block(Skip)), GenStmt(t, names, 0, NO_LOOP, Loop(c, Block(Skip)));
    BodyCode(t, names, s);
    WholeCode(code);
    AtConcat3(code, 0, loop + [CODE_NULL], [CODE_RETURN], [CODE_END]);
    AtConcat(code, 0, loop, [CODE_NULL]);
    LoopLands(code, t, names, 0, NO_LOOP, c, Block(Skip));
    LoopCode(t, names, 0, NO_LOOP, c, Block(Skip));
    LoopForm(t, names, 0, c, Block(Skip));
    EmptyBlock(t, names, 0x1_0003, LoopInfo(0, |names|, To(0x1_0006)));
    AtConcat(code, 0, GenExpr(t, names, c) + GenJump(CODE_JUMP_IF, 3) + [], GenJump(CODE_LOOP, 0x1_0006));
    AtConcat3(code, 0, GenExpr(t, names, c), GenJump(CODE_JUMP_IF, 3), []);
  }

  lemma BodyCode(t: Tables, names: seq<string>, s: Stmt)
    ensures GenBody(t, names, Statements(s))
            == GenStmt(t, names, 0, NO_LOOP, s) + [CODE_NULL] + [CODE_RETURN] + [CODE_END]
  {
    hide GenStmt;
  }

  lemma EmptyBlock(t: Tables, names: seq<string>, at: nat, loop: LoopInfo)
    ensures GenStmt(t, names, at, loop, Block(Skip)) == [] && SizeStmt(names, loop.locals, Block(Skip)) == 0
  {
  }

  lemma ConditionReady(m: Machine, c: Expr)
    requires m.tables == GrowExpr(NOTHING, ["this"], c) == NeedMethod(NOTHING, UnaryName(Not))
    requires HeightExpr(c) == 1 && JumpsFitExpr(["this"], c) && At(m.code, 0, GenExpr(m.tables, ["this"], c))
    ensures SimulateExpr.Ready(m, ["this"], 0, c, 0, 3)
  {
    hide At, GenExpr, GrowExpr, CoversExpr, JumpsFitExpr, HeightExpr;
    GrowCovers(NOTHING, ["this"], c);
  }

  lemma Evaluated(m: Machine, env: Env, w: World, c: Expr, k: nat)
    requires m.calls == WrenNot && EvalExpr(WrenNot, env, w, c) == Value(env, w, True)
    requires SizeExpr(env.names, c) == 0x1_0000
    requires Yields(m, State(0, Frame(env, []), w), k, 0 + SizeExpr(env.names, c), [], EvalExpr(m.calls, env, w, c), 3)
    ensures Reach(m, State(0, env.values, w), k, State(0x1_0000, env.values + [True], w), 3)
  {
    hide EvalExpr, SizeExpr, Reach;
    assert env.values + [] == env.values && [] + [True] == [True];
  }

  lemma OneValue(env: Env)
    requires env.names == ["this"]
    ensures env.values == [env.values[0]]
  {
  }

  // The test takes the condition, then the receiver, and then finds nothing.
  lemma TestAgain(m: Machine, w: World, receiver: Value)
    requires At(m.code, 0x1_0000, GenJump(CODE_JUMP_IF, 3)) && JumpsBack(m.code, 0x1_0003, 0x1_0000)
             && !receiver.Falsy()
    ensures Ends(m, State(0x1_0000, [receiver] + [True], w), 4, Stuck, 3)
  {
    OperandAt(m.code, 0x1_0000, CODE_JUMP_IF, 3);
    hide At, JumpsBack, ReadShort;
  }

  // ----- Method symbols -----

  // A call reads back the symbol of its method exactly when that is below 2^16.
  lemma CallReads(code: seq<byte>, at: nat, t: Tables, arity: nat, name: string)
    requires arity <= 16 && At(code, at, GenCall(t, arity, name))
    ensures at + 3 <= |code| && code[at] == CODE_CALL_0 + arity
    ensures ReadShort(code, at + 1) == IndexOf(t.methods, name) <==> IndexOf(t.methods, name) < 0x1_0000
    ensures ReadShort(code, at + 1) == IndexOf(t.methods, name) % 0x1_0000
  {
    hide IndexOf;
    OperandAt(code, at, CODE_CALL_0 + arity, IndexOf(t.methods, name));
  }

  function Letter(n: nat): char
    requires n < 26
  {
    'a' + n as char
  }

  // Different names of four letters.
  function Word(n: nat): (r: string)
    requires n < 456976
    ensures |r| == 4
  {
    var q := n / 26;
    var r := q / 26;
    [Letter(n % 26), Letter(q % 26), Letter(r % 26), Letter(r / 26)]
  }

  lemma LettersDiffer(a: nat, b: nat)
    requires a < 26 && b < 26 && Letter(a) == Letter(b)
    ensures a == b
  {
    assert Letter(a) as int == 97 + a && Letter(b) as int == 97 + b;
  }

  lemma WordsDiffer(a: nat, b: nat)
    requires a < 456976 && b < 456976 && a != b
    ensures Word(a) != Word(b)
  {
    var x, y := Word(a), Word(b);
    hide Letter;
    if x == y {
      var q, r := a / 26, b / 26;
      assert x[0] == y[0] && x[1] == y[1] && x[2] == y[2] && x[3] == y[3];
      LettersDiffer(a % 26, b % 26);
      LettersDiffer(q % 26, r % 26);
      LettersDiffer(q / 26 % 26, r / 26 % 26);
      LettersDiffer(q / 26 / 26, r / 26 / 26);
    }
  }

  function Words(n: nat): seq<string>
    requires n <= 456976
  {
    seq(n, i requires 0 <= i < n => Word(i))
  }

  // "null.aaaa.baaa.caaa...", with [n] getters.
  function Getters(n: nat): Expr
    requires n <= 456976
  {
    if n == 0 then Lit(Null) else Get(Getters(n - 1), Word(n - 1))
  }

  lemma {:induction false} GettersGrow(n: nat, names: seq<string>)
    requires n <= 456976
    ensures AcceptsExpr(NOTHING, names, Getters(n)) && GrowExpr(NOTHING, names, Getters(n)) == Tables([], Words(n), [])
    decreases n
  {
    hide Word;
    if n > 0 {
      GettersGrow(n - 1, names);
      forall i {:trigger Words(n - 1)[i]} | 0 <= i < n - 1 ensures Words(n - 1)[i] != Word(n - 1) {
        WordsDiffer(i, n - 1);
      }
      assert Words(n - 1) + [Word(n - 1)] == Words(n);
    }
  }

  // After [n] == 65536 getters, another one with a new name is accepted, but calls the
  // method of the first.
  lemma LastGetterFails(m: Machine, names: seq<string>, n: nat, at: nat, stack: seq<Value>, w: World)
    requires n == 0x1_0000 && stack != [] && m.tables == Tables([], Words(n + 1), [])
    requires At(m.code, at, GenExpr(m.tables, names, Get(Getters(n), Word(n))))
    ensures AcceptsExpr(NOTHING, names, Getters(n + 1)) && GrowExpr(NOTHING, names, Getters(n + 1)) == m.tables
    ensures Getters(n + 1) == Get(Getters(n), Word(n)) && Word(n) != Word(0) == m.tables.methods[0]
    ensures var i := at + SizeExpr(names, Getters(n));
            Step(m, State(i, stack, w)) == StepCall(m, State(i, stack, w), 1, 0)
  {
    hide *;
    var e, i := Getters(n), at + SizeExpr(names, Getters(n));
    GettersGrow(n + 1, names);
    LastGetter(m.tables, names, n);
    AtConcat(m.code, at, GenExpr(m.tables, names, e), GenCall(m.tables, 0, Word(n)));
    CallReads(m.code, i, m.tables, 0, Word(n));
    LastSymbol(n);
    WordsDiffer(0, n);
    StepGetter(m, i, stack, w);
  }

  lemma LastGetter(t: Tables, names: seq<string>, n: nat)
    requires n < 456976
    ensures Getters(n + 1) == Get(Getters(n), Word(n))
    ensures GenExpr(t, names, Get(Getters(n), Word(n))) == GenExpr(t, names, Getters(n)) + GenCall(t, 0, Word(n))
    ensures |GenExpr(t, names, Getters(n))| == SizeExpr(names, Getters(n))
  {
    hide Word, GenCall;
    var e := Getters(n);
    assert Getters(n + 1) == Get(e, Word(n));
    hide Getters;
  }

  lemma LastSymbol(n: nat)
    requires n < 456976
    ensures |Words(n + 1)| == n + 1 && Words(n + 1)[0] == Word(0) && IndexOf(Words(n + 1), Word(n)) == n
  {
    hide Word, IndexOf;
    var k := IndexOf(Words(n + 1), Word(n));
    assert Words(n + 1)[n] == Word(n);
    if k != n { WordsDiffer(k, n); }
  }

  lemma StepGetter(m: Machine, i: nat, stack: seq<Value>, w: World)
    requires i + 3 <= |m.code| && m.code[i] == CODE_CALL_0 && ReadShort(m.code, i + 1) == 0
    ensures Step(m, State(i, stack, w)) == StepCall(m, State(i, stack, w), 1, 0)
  {
    hide StepCall, ReadShort;
  }

  // ----- Locals -----

  // With 254 locals in scope, "for (i in null) i" is accepted, although its variable is
  // the 257th: it is written past the end of their array, and the instruction that
  // should load it loads the first local.
  lemma ThirdLocalFails(t: Tables, names: seq<string>, depths: seq<int>, d: int)
    requires |names| == |depths| == 254
    ensures var s := ForIn("i", Lit(Null), Evaluate(Variable("i")));
            && AcceptsStmt(t, names, depths, d, false, 0, s) && Overruns(names, s) && !ForsFit(names, s)
            && GenLoad(t, ForNames(names, "i"), "i") == [CODE_LOAD_LOCAL, 0]
  {
    var inner := ForNames(names, "i");
    LastInnermost(names + [SEQ_LOCAL, ITER_LOCAL], "i");
    assert |inner| == 257;
    AcceptsShort(t, names, depths, d);
  }

  lemma LastInnermost(names: seq<string>, x: string)
    ensures Innermost(names + [x], x) == |names|
  {
  }

  lemma AcceptsShort(t: Tables, names: seq<string>, depths: seq<int>, d: int)
    requires |names| == |depths| == 254 && Innermost(ForNames(names, "i"), "i") == 256
    ensures AcceptsStmt(t, names, depths, d, false, 0, ForIn("i", Lit(Null), Evaluate(Variable("i"))))
  {
    hide Innermost, Short, IndexOf, GrowExpr, ForTables;
  }

  // ----- Long names -----

  // A variable of 64 characters is accepted, and one of 65 is not. So is a getter.
  lemma NameLengths(x: string, e: Expr)
    requires |x| == 64
    ensures var names := ["this"];
            var depths := ParameterDepths(names);
            && (x != "this" ==>
                  AcceptsStmt(NOTHING, names, depths, 0, false, 0, Declare(x, Lit(Null)))
                  && !AcceptsStmt(NOTHING, names, depths, 0, false, 0, Declare(x + "x", Lit(Null))))
            && AcceptsExpr(NOTHING, names, Get(Variable("this"), x))
            && !AcceptsExpr(NOTHING, names, Get(Variable("this"), x + "x"))
  {
  }

  // ----- What is an error and what is not -----

  // A variable may have the name of one of an enclosing scope, but not of one of its own
  // scope, and there are at most 256. At depth [d] all of [names] are from outside.
  lemma Declarations(t: Tables, names: seq<string>, depths: seq<int>, d: int, looping: bool, kept: nat, x: string)
    requires |names| == |depths| && |x| <= 64 && forall i :: 0 <= i < |depths| ==> depths[i] < d
    ensures AcceptsStmt(t, names, depths, d, looping, kept, Declare(x, Lit(Null))) <==> |names| != 256
    ensures !AcceptsStmt(t, names + [x], depths + [d], d, looping, kept, Declare(x, Lit(Null)))
    ensures |names| < 255 ==>
              AcceptsStmt(t, names + [x], depths + [d], d, looping, kept, Block(Declare(x, Lit(Null))))
  {
    BelowAll(depths, d);
    BelowAll(depths + [d], d + 1);
    DepthsGrow(names, depths, d, Declare(x, Lit(Null)), d);
    assert (names + [x])[|names|] == x;
  }

  // Break and continue are for loops only.
  lemma OnlyInLoops(t: Tables, names: seq<string>, depths: seq<int>, d: int, looping: bool, kept: nat, e: Expr)
    requires |names| == |depths| && AcceptsExpr(t, names, e)
    ensures AcceptsStmt(t, names, depths, d, looping, kept, BreakLoop) <==> looping
    ensures AcceptsStmt(t, names, depths, d, looping, kept, ContinueLoop) <==> looping
    ensures AcceptsStmt(t, names, depths, d, looping, kept, Loop(e, BreakLoop))
    ensures AcceptsStmt(t, names, depths, d, looping, kept, Loop(e, ContinueLoop))
  {
    hide AcceptsExpr;
    assert SizeStmt(names, |names|, BreakLoop) == 3 && SizeStmt(names, |names|, ContinueLoop) == 3;
  }

  // Code that is jumped over has at most 2^16 bytes, the jump at its end included.
  lemma JumpLengths(t: Tables, names: seq<string>, a: Expr, b: Expr, c: Expr)
    requires AcceptsExpr(t, names, a) && AcceptsExpr(GrowExpr(t, names, a), names, b)
    requires AcceptsExpr(GrowExpr(GrowExpr(t, names, a), names, b), names, c)
    ensures AcceptsExpr(t, names, And(a, b)) <==> SizeExpr(names, b) <= 65536
    ensures AcceptsExpr(t, names, Or(a, b)) <==> SizeExpr(names, b) <= 65536
    ensures AcceptsExpr(t, names, Cond(a, b, c)) <==> SizeExpr(names, b) <= 65533 && SizeExpr(names, c) <= 65536
  {
    hide SizeExpr, GrowExpr;
  }
}
