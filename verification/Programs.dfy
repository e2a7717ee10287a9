/** What compiles without an error runs as it should, and the limits that the
    compiler does not check. */
module Programs {
  import opened Syntax
  import opened Semantics
  import opened Bytes
  import opened Bytecode
  import opened CodeGen
  import opened Interpreter
  import opened SimulateExpr
  import opened SimulateStmt
  import opened Slots
  import opened Emission
  import opened Correctness
  import opened Compilation

  // The limits that the compiler leaves unchecked: the number of method symbols, the
  // last possible distance of a jump, the length of a loop, and the end of the array
  // of locals, past which the variable of a for statement may be written.
  predicate Encodable(t: Tables, names: seq<string>, body: Body) {
    && |GrowBody(t, names, body).methods| <= 0x1_0000 && |names| <= MAX_LOCALS
    && JumpsFitBody(names, body) && !(body.Statements? && Overruns(names, body.s))
  }

  predicate Bounded(t: Tables) {
    |t.consts| <= MAX_CONSTANTS && |t.globals| <= MAX_MODULE_VARS
  }

  lemma {:induction false} GrowBounded(t: Tables, names: seq<string>, e: Expr)
    requires Bounded(t) && AcceptsExpr(t, names, e)
    ensures Bounded(GrowExpr(t, names, e))
    decreases e
  {
    hide SizeExpr, BinaryName, UnaryName, SetterName, GrowCond;
    match e
    case Lit(_) =>
    case Variable(_) =>
    case Assign(x, rhs) => GrowBounded(NeedName(t, names, x), names, rhs);
    case Unary(_, a) => GrowBounded(t, names, a);
    case Get(a, _) => GrowBounded(t, names, a);
    case Binary(_, a, b) => GrowBounded(t, names, a); GrowBounded(GrowExpr(t, names, a), names, b);
    case Set(a, _, b) => GrowBounded(t, names, a); GrowBounded(GrowExpr(t, names, a), names, b);
    case And(a, b) => GrowBounded(t, names, a); GrowBounded(GrowExpr(t, names, a), names, b);
    case Or(a, b) => GrowBounded(t, names, a); GrowBounded(GrowExpr(t, names, a), names, b);
    case Cond(c, y, n) =>
      var t1 := GrowExpr(t, names, c);
      GrowBounded(t, names, c);
      GrowBounded(t1, names, y);
      GrowBounded(GrowExpr(t1, names, y), names, n);
      CondGrow(t, names, c, y, n);
  }

  lemma {:induction false} GrowBoundedStmt(
      t: Tables, names: seq<string>, depths: seq<int>, d: int, looping: bool, kept: nat, s: Stmt)
    requires Bounded(t) && AcceptsStmt(t, names, depths, d, looping, kept, s)
    ensures Bounded(GrowStmt(t, names, s)) && (!looping ==> !Escapes(s))
    decreases s
  {
    hide GrowExpr, AcceptsExpr, SizeStmt, SizeForLoop, ItemOffset, Declared, DepthsAfter, Redeclares, ForNames, Bounded;
    match s
    case Seq(a, b) =>
      GrowBoundedStmt(t, names, depths, d, looping, kept, a);
      GrowBoundedStmt(GrowStmt(t, names, a), Declared(names, a), DepthsAfter(depths, d, a), d, looping, kept, b);
    case Evaluate(e) => GrowBounded(t, names, e);
    case Declare(_, e) => GrowBounded(t, names, e);
    case Give(e) => GrowBounded(t, names, e);
    case Block(b) => GrowBoundedStmt(t, names, depths, d + 1, looping, kept, b);
    case IfThen(c, yes) =>
      GrowBounded(t, names, c);
      GrowBoundedStmt(GrowExpr(t, names, c), names, depths, d, looping, kept, yes);
    case IfElse(c, yes, no) =>
      GrowBounded(t, names, c);
      GrowBoundedStmt(GrowExpr(t, names, c), names, depths, d, looping, kept, yes);
      GrowBoundedStmt(GrowStmt(GrowExpr(t, names, c), names, yes), names, depths, d, looping, kept, no);
    case Loop(c, b) =>
      GrowBounded(t, names, c);
      GrowBoundedStmt(GrowExpr(t, names, c), names, depths, d, true, |names|, b);
    case ForIn(x, e, b) =>
      GrowBounded(t, names, e);
      MethodsBounded(t, names, e);
      GrowBoundedStmt(ForTables(t, names, e), ForNames(names, x), depths + [d + 1, d + 1] + [d + 2], d + 2, true,
          |names| + 2, b);
    case Skip =>
    case BreakLoop =>
    case ContinueLoop =>
  }

  lemma MethodsBounded(t: Tables, names: seq<string>, e: Expr)
    requires Bounded(GrowExpr(t, names, e))
    ensures Bounded(ForTables(t, names, e))
  {
    hide GrowExpr;
  }

  // Every for statement in [s] is entered with at most 253 locals.
  predicate ForsFit(names: seq<string>, s: Stmt)
    decreases s
  {
    match s
    case Seq(first, rest) => ForsFit(names, first) && ForsFit(Declared(names, first), rest)
    case Block(body) => ForsFit(names, body)
    case IfThen(_, yes) => ForsFit(names, yes)
    case IfElse(_, yes, no) => ForsFit(names, yes) && ForsFit(names, no)
    case Loop(_, body) => ForsFit(names, body)
    case ForIn(x, _, body) => |names| <= 253 && ForsFit(ForNames(names, x), body)
    case _ => true
  }

  // Where every other check passes, the locals fit, and nothing is written past the
  // end of their array, exactly when each for statement has room for its three.
  lemma {:induction false} LocalsExact(
      t: Tables, names: seq<string>, depths: seq<int>, d: int, looping: bool, kept: nat, s: Stmt)
    requires AcceptsStmt(t, names, depths, d, looping, kept, s) && |names| <= MAX_LOCALS
    ensures LocalsFit(names, s) <==> ForsFit(names, s)
    ensures Overruns(names, s) <==> !ForsFit(names, s)
    ensures |Declared(names, s)| <= MAX_LOCALS
    decreases s
  {
    hide GrowExpr, GrowStmt, AcceptsExpr, SizeStmt, SizeForLoop, ItemOffset, DepthsAfter, Redeclares, ForTables;
    match s
    case Seq(a, b) =>
      LocalsExact(t, names, depths, d, looping, kept, a);
      LocalsExact(GrowStmt(t, names, a), Declared(names, a), DepthsAfter(depths, d, a), d, looping, kept, b);
    case Block(b) => LocalsExact(t, names, depths, d + 1, looping, kept, b);
    case IfThen(c, yes) => LocalsExact(GrowExpr(t, names, c), names, depths, d, looping, kept, yes);
    case IfElse(c, yes, no) =>
      LocalsExact(GrowExpr(t, names, c), names, depths, d, looping, kept, yes);
      LocalsExact(GrowStmt(GrowExpr(t, names, c), names, yes), names, depths, d, looping, kept, no);
    case Loop(c, b) => LocalsExact(GrowExpr(t, names, c), names, depths, d, true, |names|, b);
    case ForIn(x, e, b) =>
      if |names| <= 253 {
        var inner := depths + [d + 1, d + 1] + [d + 2];
        LocalsExact(ForTables(t, names, e), ForNames(names, x), inner, d + 2, true, |names| + 2, b);
      } else {
        NoRoom(ForNames(names, x), b);
      }
    case _ =>
  }

  lemma NoRoom(names: seq<string>, s: Stmt)
    requires |names| > MAX_LOCALS
    ensures !LocalsFit(names, s)
  {
  }

  // A function that compiles without an error, within the unchecked limits, runs as
  // its body is evaluated, in the stack space reserved for it. The code, tables and
  // slots are those that FinishBody leaves.
  lemma {:induction false} CompiledFunctionCorrect(
      toks: seq<Token>, t: Tables, names: seq<string>, calls: Calls, env: Env, w: World, end: Effect)
    requires names != [] && env.names == names && Bounded(t)
    requires var r := ParseBody(toks);
             r.Ok? && AcceptsBody(t, Scope(names, ParameterDepths(names), 0, NoLoop), r.value)
                 && Encodable(t, names, r.value)
    ensures var body := ParseBody(toks).value;
            var tables := GrowBody(t, names, body);
            var m := Machine(GenBody(tables, names, body), tables, calls);
            && (Returns(m, env, w, end) <==> Evaluates(calls, env, w, body, end))
            && (forall k, s, bound :: Reach(m, State(0, env.values, w), k, s, bound) ==>
                   |s.stack| < |names| + MaxSlots(names, body))
  {
    hide *;
    var body := ParseBody(toks).value;
    var tables := GrowBody(t, names, body);
    var m := Machine(GenBody(tables, names, body), tables, calls);
    AcceptedCompiles(toks, t, names, calls);
    CompilerCorrect(m, env, w, body, end);
    forall k, s, bound | Reach(m, State(0, env.values, w), k, s, bound)
      ensures |s.stack| < |names| + MaxSlots(names, body)
    {
      StackSafe(m, env, w, body, k, s, bound);
      SlotsReserved(names, body);
    }
  }

  // The code of a function whose receiver and parameters are [names] does in every run
  // what evaluating [body] does, and keeps below the space reserved for it.
  ghost predicate Correct(code: seq<byte>, tables: Tables, names: seq<string>, body: Body, maxSlots: int) {
    && (body.Statements? ==> WellFormed(body.s))
    && (forall calls: Calls, env: Env, w: World, end: Effect ::
          env.names == names ==>
                (Returns(Machine(code, tables, calls), env, w, end) <==> Evaluates(calls, env, w, body, end)))
    && (forall calls: Calls, env: Env, w: World, k: nat, s: State, bound: nat ::
          env.names == names && Reach(Machine(code, tables, calls), State(0, env.values, w), k, s, bound) ==>
            |s.stack| < |names| + maxSlots)
  }

  // Compiles the body of a function, after its "{". There is an error exactly when the
  // tokens do not parse or exceed a limit that is checked; within the other limits, the
  // code is correct.
  method CompileFunction(
      toks: seq<Token>, symbols: seq<string>, variables: seq<string>, names: seq<string>, functions: seq<nat>)
    returns (ok: bool, code: seq<byte>, tables: Tables, maxSlots: int, overrun: bool)
    requires 0 < |names| <= MAX_LOCALS && |variables| <= MAX_MODULE_VARS
    ensures var r, at := ParseBody(toks), Scope(names, ParameterDepths(names), 0, NoLoop);
            ok <==> r.Ok? && AcceptsBody(Tables([], symbols, variables), at, r.value)
    ensures ok ==>
              var body := ParseBody(toks).value;
              && (overrun <==> body.Statements? && !ForsFit(names, body.s))
              && (!overrun && |tables.methods| <= 0x1_0000 && JumpsFitBody(names, body) ==>
                    Correct(code, tables, names, body, maxSlots))
  {
    hide ParseBody, AcceptsStmt, AcceptsExpr, GenBody, GrowBody, MaxSlots, Overruns, ForsFit, JumpsFitBody, Correct,
         ParameterDepths;
    ghost var t, at := Tables([], symbols, variables), Scope(names, ParameterDepths(names), 0, NoLoop);
    var compiler := new Compiler(toks, symbols, variables, names, functions);
    compiler.FinishBody();
    ok, overrun := !compiler.hasError, compiler.overrun;
    code, maxSlots := compiler.code, compiler.maxSlots;
    tables := Tables(compiler.constants, compiler.methods, compiler.globals);
    if ok {
      ghost var body := ParseBody(toks).value;
      if body.Statements? { LocalsExact(t, names, at.depths, 0, false, 0, body.s); }
      if !overrun && |tables.methods| <= 0x1_0000 && JumpsFitBody(names, body) { CodeCorrect(toks, t, names); }
    }
  }

  // The lengths that the compiler checks too late by one, or not at all.
  predicate JumpsFitBody(names: seq<string>, body: Body) {
    match body
    case Result(e) => JumpsFitExpr(names, e)
    case Statements(s) => JumpsFitStmt(names, 0, s)
  }

  lemma CodeCorrect(toks: seq<Token>, t: Tables, names: seq<string>)
    requires 0 < |names| <= MAX_LOCALS && Bounded(t) && ParseBody(toks).Ok?
    requires var body := ParseBody(toks).value;
             && AcceptsBody(t, Scope(names, ParameterDepths(names), 0, NoLoop), body) && JumpsFitBody(names, body)
             && |GrowBody(t, names, body).methods| <= 0x1_0000 && !(body.Statements? && Overruns(names, body.s))
    ensures var body := ParseBody(toks).value;
            var tables := GrowBody(t, names, body);
            Correct(GenBody(tables, names, body), tables, names, body, MaxSlots(names, body))
  {
    hide ParseBody, AcceptsBody, GenBody, GrowBody, MaxSlots, Overruns, JumpsFitExpr, JumpsFitStmt, ParameterDepths,
         Returns, Evaluates, Reach;
    var body := ParseBody(toks).value;
    var tables := GrowBody(t, names, body);
    var code := GenBody(tables, names, body);
    forall calls: Calls, env: Env, w: World, end: Effect | env.names == names
      ensures Returns(Machine(code, tables, calls), env, w, end) <==> Evaluates(calls, env, w, body, end)
    {
      CompiledFunctionCorrect(toks, t, names, calls, env, w, end);
    }
    forall calls: Calls, env: Env, w: World, k: nat, s: State, bound: nat
      | env.names == names && Reach(Machine(code, tables, calls), State(0, env.values, w), k, s, bound)
      ensures |s.stack| < |names| + MaxSlots(names, body)
    {
      CompiledFunctionCorrect(toks, t, names, calls, env, w, Stuck);
    }
  }

  lemma {:induction false} AcceptedCompiles(toks: seq<Token>, t: Tables, names: seq<string>, calls: Calls)
    requires Bounded(t) && ParseBody(toks).Ok?
    requires AcceptsBody(t, Scope(names, ParameterDepths(names), 0, NoLoop), ParseBody(toks).value)
    requires Encodable(t, names, ParseBody(toks).value)
    ensures var body := ParseBody(toks).value;
            var tables := GrowBody(t, names, body);
            && (body.Statements? ==> WellFormed(body.s))
            && Compiled(Machine(GenBody(tables, names, body), tables, calls), names, body)
  {
    hide ParseBody, AcceptsExpr, AcceptsStmt, GrowExpr, GrowStmt, JumpsFitExpr, JumpsFitStmt, LocalsFit, Overruns,
         ForsFit, GenBody, CoversExpr, CoversStmt, WellFormed, Escapes, ParameterDepths;
    var body := ParseBody(toks).value;
    var tables := GrowBody(t, names, body);
    WholeCode(GenBody(tables, names, body));
    match body
    case Result(e) =>
      GrowBounded(t, names, e);
      GrowCovers(t, names, e);
    case Statements(s) =>
      GrowBoundedStmt(t, names, ParameterDepths(names), 0, false, 0, s);
      LocalsExact(t, names, ParameterDepths(names), 0, false, 0, s);
      GrowCoversStmt(t, names, s);
  }

  lemma WholeCode(code: seq<byte>)
    ensures At(code, 0, code)
  {
  }

  // ----- The unchecked limits -----

  // Of the jumps that are patched without an error, exactly the longest does not
  // land at the end of the code: its operand reads as zero.
  lemma PatchedJumpLands(u: Output, offset: nat)
    requires offset + 2 <= |u.code| && |u.code| - offset - 2 <= MAX_JUMP
    ensures offset + 2 + ReadShort(Emission.PatchJump(u, offset).code, offset) == |u.code|
            <==> |u.code| - offset - 2 < MAX_JUMP
  {
    var n := |u.code| - offset - 2;
    var code := Emission.PatchJump(u, offset).code;
    assert code[offset] == Short(n)[0] && code[offset + 1] == Short(n)[1];
    ShortRoundTrip(n);
  }

  // An operand of [n] negations.
  function Negations(n: nat): Expr {
    if n == 0 then Lit(Null) else Expr.Unary(Not, Negations(n - 1))
  }

  // The operator "!", which is true of null and false.
  const WrenNot: Calls := (w: World, name: string, args: seq<Syntax.Value>) =>
    Returned(if args != [] && args[0].Falsy() then True else False, w)

  const NOTHING := Tables([], [], [])

  lemma {:induction false} NegationsSize(n: nat, t: Tables, names: seq<string>)
    ensures SizeExpr(names, Negations(n)) == 1 + 3 * n && HeightExpr(Negations(n)) == 1
            && JumpsFitExpr(names, Negations(n))
    ensures AcceptsExpr(t, names, Negations(n))
    ensures GrowExpr(t, names, Negations(n)) == if n == 0 then t else NeedMethod(t, UnaryName(Not))
  {
    if n > 0 { NegationsSize(n - 1, t, names); }
  }

  lemma {:induction false} NegationsAre(n: nat, env: Env, w: World)
    ensures EvalExpr(WrenNot, env, w, Negations(n))
         == Value(env, w, if n == 0 then Null else if n % 2 == 1 then True else False)
  {
    if n > 0 { NegationsAre(n - 1, env, w); }
  }

  // "false && !!...!null" with an operand of exactly 2^16 bytes compiles without an
  // error, but does not stop at false.
  lemma LongestJumpFails(env: Env, w: World)
    requires env.names == ["this"]
    ensures var names := ["this"];
            var e := And(Lit(False), Negations(21845));
            var t := GrowExpr(NOTHING, names, e);
            && AcceptsExpr(NOTHING, names, e)
            && EvalBody(WrenNot, 0, env, w, Result(e)) == Gave(False, w)
            && Returns(Machine(GenBody(t, names, Result(e)), t, WrenNot), env, w, Finished(True, w))
  {
    hide *;
    var names := ["this"];
    var right := Negations(21845);
    var e := And(Lit(False), right);
    var t := GrowExpr(NOTHING, names, e);
    var m := Machine(GenBody(t, names, Result(e)), t, WrenNot);
    NegationsSize(21845, NOTHING, names);
    NegationsAre(21845, env, w);
    LongSetup(env, w, e, right, t, m);
    var start := State(0, env.values, w);
    var k := SimExpr(m, env, w, 4, right, [False], 4);
    RightValue(m, env, w, right, k);
    ReachTrans(m, start, 2, State(4, Frame(env, [False]), w), k, State(4 + 0x1_0000, Frame(env, [False] + [True]), w),
        4);
    FrameTwo(env, False, True);
    ReturnStep(m, 4 + 0x1_0000, env.values + [False], True, w, 4);
    ReachEnds(m, start, 2 + k, State(4 + 0x1_0000, Frame(env, [False] + [True]), w), 0, Finished(True, w), 4);
    EndsReturns(m, env, w, Finished(True, w), 2 + k + 0, 4);
  }

  lemma EndsReturns(m: Machine, env: Env, w: World, end: Effect, k: nat, bound: nat)
    requires Ends(m, State(0, env.values, w), k, end, bound) && !end.Next?
    ensures Returns(m, env, w, end)
  {
    hide Ends;
  }

  lemma FrameTwo(env: Env, a: Value, b: Value)
    ensures Frame(env, [a] + [b]) == env.values + [a] + [b]
  {
  }

  lemma RightValue(m: Machine, env: Env, w: World, right: Expr, k: nat)
    requires m.calls == WrenNot && EvalExpr(WrenNot, env, w, right) == Value(env, w, True)
    requires Yields(m, State(4, Frame(env, [False]), w), k, 4 + 0x1_0000, [False], EvalExpr(m.calls, env, w, right), 4)
    ensures Reach(m, State(4, Frame(env, [False]), w), k, State(4 + 0x1_0000, Frame(env, [False] + [True]), w), 4)
  {
    hide EvalExpr;
  }

  // The first two instructions, and the rest of the code.
  lemma LongSetup(env: Env, w: World, e: Expr, right: Expr, t: Tables, m: Machine)
    requires env.names == ["this"] && right == Negations(21845) && e == And(Lit(False), right)
    requires t == GrowExpr(NOTHING, ["this"], e) && m == Machine(GenBody(t, ["this"], Result(e)), t, WrenNot)
    requires SizeExpr(["this"], right) == 0x1_0000 && HeightExpr(right) == 1 && JumpsFitExpr(["this"], right)
    requires AcceptsExpr(NOTHING, ["this"], right)
             && GrowExpr(NOTHING, ["this"], right) == NeedMethod(NOTHING, UnaryName(Not))
    ensures AcceptsExpr(NOTHING, ["this"], e) && EvalBody(WrenNot, 0, env, w, Result(e)) == Gave(False, w)
    ensures Reach(m, State(0, env.values, w), 2, State(4, Frame(env, [False]), w), 4)
    ensures SimulateExpr.Ready(m, ["this"], 4, right, 1, 4) && At(m.code, 4 + 0x1_0000, [CODE_RETURN])
            && |env.values| == 1
  {
    hide *;
    FalseAnd(env, w, right);
    EvalBodyIs(WrenNot, 0, env, w, Result(e));
    LongCode(m.code, t, right);
    FalseSteps(m, env, w);
    FalseReady(m, right);
  }

  lemma FalseAnd(env: Env, w: World, right: Expr)
    requires SizeExpr(["this"], right) == 0x1_0000 && AcceptsExpr(NOTHING, ["this"], right)
    ensures AcceptsExpr(NOTHING, ["this"], And(Lit(False), right))
    ensures EvalExpr(WrenNot, env, w, And(Lit(False), right)) == Value(env, w, False)
    ensures GrowExpr(NOTHING, ["this"], And(Lit(False), right)) == GrowExpr(NOTHING, ["this"], right)
  {
    hide SizeExpr;
    assert GrowExpr(NOTHING, ["this"], Lit(False)) == NOTHING;
  }

  lemma LongCode(code: seq<byte>, t: Tables, right: Expr)
    requires SizeExpr(["this"], right) == 0x1_0000 && code == GenBody(t, ["this"], Result(And(Lit(False), right)))
    ensures At(code, 0, [CODE_FALSE]) && At(code, 1, GenJump(CODE_AND, 0)) && At(code, 4, GenExpr(t, ["this"], right))
    ensures At(code, 4 + 0x1_0000, [CODE_RETURN])
  {
    hide *;
    var gr, jump := GenExpr(t, ["this"], right), GenJump(CODE_AND, 0);
    LongBytes(t, right);
    WholeCode(code);
    AtConcat3(code, 0, [CODE_FALSE] + jump + gr, [CODE_RETURN], [CODE_END]);
    AtConcat3(code, 0, [CODE_FALSE], jump, gr);
  }

  lemma LongBytes(t: Tables, right: Expr)
    requires SizeExpr(["this"], right) == 0x1_0000
    ensures GenBody(t, ["this"], Result(And(Lit(False), right)))
         == [CODE_FALSE] + GenJump(CODE_AND, 0) + GenExpr(t, ["this"], right) + [CODE_RETURN] + [CODE_END]
  {
    hide SizeExpr, GenExpr;
    AndBytes(t, ["this"], Lit(False), right);
    FalseBytes(t);
  }

  lemma FalseBytes(t: Tables)
    ensures GenExpr(t, ["this"], Lit(False)) == [CODE_FALSE] && GenLiteral(t, False) == [CODE_FALSE]
  {
  }

  lemma FalseSteps(m: Machine, env: Env, w: World)
    requires |env.values| == 1 && At(m.code, 0, [CODE_FALSE]) && At(m.code, 1, GenJump(CODE_AND, 0))
    ensures Reach(m, State(0, env.values, w), 2, State(4, Frame(env, [False]), w), 4)
  {
    hide Step, At, Reach, GenJump;
    AtByteFalse(m, env, w);
    var taken, next := BranchStep(m, 1, CODE_AND, 0, env.values, False, w, 4);
    ReachTrans(m, State(0, env.values, w), 1, State(1, env.values + [False], w), 1, next, 4);
  }

  lemma AtByteFalse(m: Machine, env: Env, w: World)
    requires |env.values| == 1 && At(m.code, 0, [CODE_FALSE])
    ensures Reach(m, State(0, env.values, w), 1, State(1, env.values + [False], w), 4)
  {
    AtByte(m.code, 0, [CODE_FALSE], 0);
    assert Step(m, State(0, env.values, w)) == Next(State(1, env.values + [False], w));
    assert Reach(m, State(1, env.values + [False], w), 0, State(1, env.values + [False], w), 4);
  }

  lemma FalseReady(m: Machine, right: Expr)
    requires m.tables == GrowExpr(NOTHING, ["this"], right) == NeedMethod(NOTHING, UnaryName(Not))
    requires HeightExpr(right) == 1 && JumpsFitExpr(["this"], right)
             && At(m.code, 4, GenExpr(m.tables, ["this"], right))
    ensures SimulateExpr.Ready(m, ["this"], 4, right, 1, 4)
  {
    hide At, GenExpr, GrowExpr, CoversExpr, JumpsFitExpr, HeightExpr;
    GrowCovers(NOTHING, ["this"], right);
  }
}
