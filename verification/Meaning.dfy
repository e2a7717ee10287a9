/** What compiled code does with values and names, said of its runs without the notions
    that evaluation and the machine have in common: null and false alone count as false,
    and operators, getters, setters and for statements call the methods spelled here. */
module Meaning {
  import opened Syntax
  import opened Semantics
  import opened Bytes
  import opened Bytecode
  import opened CodeGen
  import opened Interpreter
  import opened SimulateExpr
  import opened SimulateStmt
  import opened Correctness

  // ----- Ends of runs -----

  // [end] is the end of a function whose result is that of an expression, of a call, or
  // of a statement.
  predicate Gives(r: ExprResult, end: Effect) {
    match r
    case Value(_, w, v) => end == Finished(v, w)
    case Abort(w) => end == Crashed(w)
  }

  predicate Answers(r: CallResult, end: Effect) {
    match r
    case Returned(v, w) => end == Finished(v, w)
    case Raised(w) => end == Crashed(w)
  }

  predicate Leads(o: Outcome, end: Effect) {
    match o
    case Normal(_, w) => end == Finished(Null, w)
    case Gave(v, w) => end == Finished(v, w)
    case Failed(w) => end == Crashed(w)
    case _ => false
  }

  lemma ExprRuns(m: Machine, env: Env, w: World, e: Expr, end: Effect)
    requires Compiled(m, env.names, Result(e))
    ensures Returns(m, env, w, end) <==> Gives(EvalExpr(m.calls, env, w, e), end)
  {
    hide EvalExpr, Compiled, Returns, EvalBody;
    CompilerCorrect(m, env, w, Result(e), end);
    EvalBodyIs(m.calls, 0, env, w, Result(e));
    forall fuel: nat ensures EvalBody(m.calls, fuel, env, w, Result(e)) == EvalBody(m.calls, 0, env, w, Result(e)) {
      EvalBodyIs(m.calls, fuel, env, w, Result(e));
    }
  }

  ghost predicate StmtEnds(calls: Calls, env: Env, w: World, s: Stmt, end: Effect)
    requires WellFormed(s)
  {
    exists fuel: nat :: Leads(EvalStmt(calls, fuel, env, w, s), end)
  }

  lemma StmtRuns(m: Machine, env: Env, w: World, s: Stmt, end: Effect)
    requires WellFormed(s) && Compiled(m, env.names, Statements(s))
    ensures Returns(m, env, w, end) <==> StmtEnds(m.calls, env, w, s, end)
  {
    hide EvalStmt, Compiled, Returns, EvalBody, WellFormed, Leads;
    CompilerCorrect(m, env, w, Statements(s), end);
    if Evaluates(m.calls, env, w, Statements(s), end) {
      var fuel: nat :| !EvalBody(m.calls, fuel, env, w, Statements(s)).OutOfFuel?
          && Final(EvalBody(m.calls, fuel, env, w, Statements(s))) == end;
      LeadsFinal(m, env, w, s, fuel, end);
    }
    if StmtEnds(m.calls, env, w, s, end) {
      var fuel: nat :| Leads(EvalStmt(m.calls, fuel, env, w, s), end);
      LeadsFinal(m, env, w, s, fuel, end);
    }
  }

  lemma LeadsFinal(m: Machine, env: Env, w: World, s: Stmt, fuel: nat, end: Effect)
    requires WellFormed(s) && Compiled(m, env.names, Statements(s))
    ensures var o := EvalBody(m.calls, fuel, env, w, Statements(s));
            Leads(EvalStmt(m.calls, fuel, env, w, s), end) <==> !o.OutOfFuel? && Final(o) == end
  {
    hide EvalStmt, Compiled, EvalBody, WellFormed;
    EvalBodyIs(m.calls, fuel, env, w, Statements(s));
    var k := SimBody(m, fuel, env, w, Statements(s));
  }

  // ----- What counts as false -----

  // The conditional jump after a condition, wherever they stand.
  lemma {:induction false} TestRuns(m: Machine, env: Env, w: World, at: nat, c: Expr, n: nat, bound: nat)
    returns (k: nat)
    requires Ready(m, env.names, at, c, 0, bound) && n < 0x1_0000
    requires At(m.code, at + SizeExpr(env.names, c), GenJump(CODE_JUMP_IF, n))
    requires EvalExpr(m.calls, env, w, c).Value?
    ensures var r := EvalExpr(m.calls, env, w, c);
            var next := at + SizeExpr(env.names, c) + 3;
            Reach(m, State(at, env.values, w), k,
                  State(if r.value == Null || r.value == False then next + n else next, r.env.values, r.world), bound)
  {
    hide Ready, EvalExpr, SizeExpr, At, Reach;
    var r := EvalExpr(m.calls, env, w, c);
    assert Frame(env, []) == env.values && Frame(r.env, [r.value]) == r.env.values + [r.value];
    var i := SimExpr(m, env, w, at, c, [], bound);
    assert [] + [r.value] == [r.value];
    Room(m, env.names, at, c, bound);
    var taken,
        next := BranchStep(m, at + SizeExpr(env.names, c), CODE_JUMP_IF, n, r.env.values, r.value, r.world, bound);
    ReachTrans(m, State(at, env.values, w), i, State(at + SizeExpr(env.names, c), r.env.values + [r.value], r.world),
               1, next, bound);
    k := i + 1;
  }

  lemma Room(m: Machine, names: seq<string>, at: nat, c: Expr, bound: nat)
    requires Ready(m, names, at, c, 0, bound)
    ensures |names| < bound
  {
    assert HeightExpr(c) >= 1;
  }

  lemma CondRuns(m: Machine, env: Env, w: World, c: Expr, yes: Expr, no: Expr, end: Effect)
    requires Compiled(m, env.names, Result(Cond(c, yes, no))) && EvalExpr(m.calls, env, w, c).Value?
    ensures var r := EvalExpr(m.calls, env, w, c);
            var branch := if r.value == Null || r.value == False then no else yes;
            && EvalExpr(m.calls, env, w, Cond(c, yes, no)) == EvalExpr(m.calls, r.env, r.world, branch)
            && (Returns(m, env, w, end) <==> Gives(EvalExpr(m.calls, r.env, r.world, branch), end))
  {
    hide Compiled, Returns;
    ExprRuns(m, env, w, Cond(c, yes, no), end);
  }

  lemma LogicalIs(calls: Calls, env: Env, w: World, a: Expr, b: Expr, env1: Env, w1: World, v: Value)
    requires EvalExpr(calls, env, w, a) == ExprResult.Value(env1, w1, v)
    ensures EvalExpr(calls, env, w, And(a, b))
            == if v == Null || v == False then ExprResult.Value(env1, w1, v) else EvalExpr(calls, env1, w1, b)
    ensures EvalExpr(calls, env, w, Or(a, b))
            == if v == Null || v == False then EvalExpr(calls, env1, w1, b) else ExprResult.Value(env1, w1, v)
  {
  }

  lemma AndRuns(m: Machine, env: Env, w: World, a: Expr, b: Expr, env1: Env, w1: World, v: Value, end: Effect)
    requires Compiled(m, env.names, Result(And(a, b)))
    requires EvalExpr(m.calls, env, w, a) == ExprResult.Value(env1, w1, v)
    ensures Returns(m, env, w, end)
            <==> if v == Null || v == False then end == Finished(v, w1) else Gives(EvalExpr(m.calls, env1, w1, b), end)
  {
    hide Compiled, Returns, EvalExpr;
    LogicalIs(m.calls, env, w, a, b, env1, w1, v);
    ExprRuns(m, env, w, And(a, b), end);
  }

  lemma OrRuns(m: Machine, env: Env, w: World, a: Expr, b: Expr, env1: Env, w1: World, v: Value, end: Effect)
    requires Compiled(m, env.names, Result(Or(a, b)))
    requires EvalExpr(m.calls, env, w, a) == ExprResult.Value(env1, w1, v)
    ensures Returns(m, env, w, end)
            <==> if v == Null || v == False then Gives(EvalExpr(m.calls, env1, w1, b), end) else end == Finished(v, w1)
  {
    hide Compiled, Returns, EvalExpr;
    LogicalIs(m.calls, env, w, a, b, env1, w1, v);
    ExprRuns(m, env, w, Or(a, b), end);
  }

  lemma IfIs(calls: Calls, fuel: nat, env: Env, w: World, c: Expr, yes: Stmt, no: Stmt)
    requires WellFormed(IfElse(c, yes, no)) && EvalExpr(calls, env, w, c).Value?
    ensures var r := EvalExpr(calls, env, w, c);
            var takesNo := r.value == Null || r.value == False;
            && EvalStmt(calls, fuel, env, w, IfElse(c, yes, no))
               == EvalStmt(calls, fuel, r.env, r.world, if takesNo then no else yes)
            && EvalStmt(calls, fuel, env, w, IfThen(c, yes))
               == if takesNo then Normal(r.env, r.world) else EvalStmt(calls, fuel, r.env, r.world, yes)
  {
    hide EvalExpr;
  }

  lemma IfElseRuns(m: Machine, env: Env, w: World, c: Expr, yes: Stmt, no: Stmt, end: Effect)
    requires WellFormed(IfElse(c, yes, no)) && EvalExpr(m.calls, env, w, c).Value?
    requires Compiled(m, env.names, Statements(IfElse(c, yes, no)))
    ensures var r := EvalExpr(m.calls, env, w, c);
            Returns(m, env, w, end)
            <==> StmtEnds(m.calls, r.env, r.world, if r.value == Null || r.value == False then no else yes, end)
  {
    hide Compiled, Returns, EvalExpr, EvalStmt, Leads;
    StmtRuns(m, env, w, IfElse(c, yes, no), end);
    var r := EvalExpr(m.calls, env, w, c);
    var branch := if r.value == Null || r.value == False then no else yes;
    if StmtEnds(m.calls, env, w, IfElse(c, yes, no), end) {
      var fuel: nat :| Leads(EvalStmt(m.calls, fuel, env, w, IfElse(c, yes, no)), end);
      IfIs(m.calls, fuel, env, w, c, yes, no);
    }
    if StmtEnds(m.calls, r.env, r.world, branch, end) {
      var fuel: nat :| Leads(EvalStmt(m.calls, fuel, r.env, r.world, branch), end);
      IfIs(m.calls, fuel, env, w, c, yes, no);
    }
  }

  lemma IfThenRuns(m: Machine, env: Env, w: World, c: Expr, yes: Stmt, end: Effect)
    requires WellFormed(IfThen(c, yes)) && EvalExpr(m.calls, env, w, c).Value?
    requires Compiled(m, env.names, Statements(IfThen(c, yes)))
    ensures var r := EvalExpr(m.calls, env, w, c);
            Returns(m, env, w, end)
            <==> if r.value == Null || r.value == False then end == Finished(Null, r.world)
                 else StmtEnds(m.calls, r.env, r.world, yes, end)
  {
    hide Compiled, Returns, EvalExpr, EvalStmt;
    StmtRuns(m, env, w, IfThen(c, yes), end);
    var r := EvalExpr(m.calls, env, w, c);
    IfIs(m.calls, 0, env, w, c, yes, yes);
    if StmtEnds(m.calls, env, w, IfThen(c, yes), end) {
      var fuel: nat :| Leads(EvalStmt(m.calls, fuel, env, w, IfThen(c, yes)), end);
      IfIs(m.calls, fuel, env, w, c, yes, yes);
    }
    if r.value == Null || r.value == False {
      assert Leads(EvalStmt(m.calls, 0, env, w, IfThen(c, yes)), end) <==> end == Finished(Null, r.world);
    } else if StmtEnds(m.calls, r.env, r.world, yes, end) {
      var fuel: nat :| Leads(EvalStmt(m.calls, fuel, r.env, r.world, yes), end);
      IfIs(m.calls, fuel, env, w, c, yes, yes);
      assert Leads(EvalStmt(m.calls, fuel, env, w, IfThen(c, yes)), end);
    }
  }

  // How a loop goes on when its condition holds: the body, and then the loop again,
  // with the locals from before.
  function Round(calls: Calls, fuel: nat, env: Env, w: World, n: nat, c: Expr, body: Stmt): Outcome
    requires WellFormed(Loop(c, body))
  {
    match EvalStmt(calls, fuel + 1, env, w, body)
    case Normal(env', w') => EvalStmt(calls, fuel, env', w', Loop(c, body))
    case Continued(env', w') => EvalStmt(calls, fuel, Cut(env', n), w', Loop(c, body))
    case Broke(env', w') => Normal(Cut(env', n), w')
    case o => o
  }

  ghost predicate RoundEnds(calls: Calls, env: Env, w: World, n: nat, c: Expr, body: Stmt, end: Effect)
    requires WellFormed(Loop(c, body))
  {
    exists fuel: nat :: Leads(Round(calls, fuel, env, w, n, c, body), end)
  }

  lemma WhileIs(calls: Calls, fuel: nat, env: Env, w: World, c: Expr, body: Stmt)
    requires WellFormed(Loop(c, body)) && EvalExpr(calls, env, w, c).Value?
    ensures EvalStmt(calls, 0, env, w, Loop(c, body)).OutOfFuel?
    ensures var r := EvalExpr(calls, env, w, c);
            EvalStmt(calls, fuel + 1, env, w, Loop(c, body))
            == if r.value == Null || r.value == False then Normal(r.env, r.world)
               else Round(calls, fuel, r.env, r.world, |env.names|, c, body)
  {
    hide EvalExpr;
    assert EvalStmt(calls, 0, env, w, Loop(c, body)) == EvalLoop(calls, 0, env, w, c, body);
    assert EvalStmt(calls, fuel + 1, env, w, Loop(c, body)) == EvalLoop(calls, fuel + 1, env, w, c, body);
    LoopsAgain(calls, fuel, c, body);
  }

  lemma LoopsAgain(calls: Calls, fuel: nat, c: Expr, body: Stmt)
    requires WellFormed(Loop(c, body))
    ensures forall env: Env, w :: EvalStmt(calls, fuel, env, w, Loop(c, body)) == EvalLoop(calls, fuel, env, w, c, body)
  {
    hide EvalLoop, EvalExpr;
  }

  lemma WhileRuns(m: Machine, env: Env, w: World, c: Expr, body: Stmt, end: Effect)
    requires WellFormed(Loop(c, body)) && EvalExpr(m.calls, env, w, c).Value?
    requires Compiled(m, env.names, Statements(Loop(c, body)))
    ensures var r := EvalExpr(m.calls, env, w, c);
            Returns(m, env, w, end)
            <==> if r.value == Null || r.value == False then end == Finished(Null, r.world)
                 else RoundEnds(m.calls, r.env, r.world, |env.names|, c, body, end)
  {
    hide Compiled, Returns, EvalExpr, EvalStmt, Round;
    var r, s := EvalExpr(m.calls, env, w, c), Loop(c, body);
    StmtRuns(m, env, w, s, end);
    WhileIs(m.calls, 0, env, w, c, body);
    if StmtEnds(m.calls, env, w, s, end) {
      var fuel: nat :| Leads(EvalStmt(m.calls, fuel, env, w, s), end);
      assert fuel > 0;
      WhileIs(m.calls, fuel - 1, env, w, c, body);
    }
    if r.value == Null || r.value == False {
      assert Leads(EvalStmt(m.calls, 1, env, w, s), end) <==> end == Finished(Null, r.world);
    } else if RoundEnds(m.calls, r.env, r.world, |env.names|, c, body, end) {
      var fuel: nat :| Leads(Round(m.calls, fuel, r.env, r.world, |env.names|, c, body), end);
      WhileIs(m.calls, fuel, env, w, c, body);
      assert Leads(EvalStmt(m.calls, fuel + 1, env, w, s), end);
    }
  }

  // A loop whose body breaks ends after one test, and one whose body continues tests again.
  lemma RoundLeft(calls: Calls, fuel: nat, env: Env, w: World, c: Expr)
    ensures Round(calls, fuel, env, w, |env.names|, c, BreakLoop) == Normal(env, w)
    ensures Round(calls, fuel, env, w, |env.names|, c, ContinueLoop)
            == EvalStmt(calls, fuel, env, w, Loop(c, ContinueLoop))
  {
    hide EvalExpr;
    assert EvalStmt(calls, fuel + 1, env, w, BreakLoop) == Broke(env, w);
    assert EvalStmt(calls, fuel + 1, env, w, ContinueLoop) == Continued(env, w);
    hide EvalStmt;
    assert Cut(env, |env.names|) == env;
  }

  lemma BreakRuns(m: Machine, env: Env, w: World, c: Expr, end: Effect)
    requires EvalExpr(m.calls, env, w, c).Value?
    requires Compiled(m, env.names, Statements(Loop(c, BreakLoop)))
    ensures Returns(m, env, w, end) <==> end == Finished(Null, EvalExpr(m.calls, env, w, c).world)
  {
    SameNames(m.calls, env, w, c);
    hide Compiled, Returns, EvalExpr, EvalStmt, Round;
    WhileRuns(m, env, w, c, BreakLoop, end);
    var r := EvalExpr(m.calls, env, w, c);
    forall fuel: nat
      ensures Round(m.calls, fuel, r.env, r.world, |env.names|, c, BreakLoop) == Normal(r.env, r.world)
    {
      RoundLeft(m.calls, fuel, r.env, r.world, c);
    }
    assert Leads(Round(m.calls, 0, r.env, r.world, |env.names|, c, BreakLoop), end) <==> end == Finished(Null, r.world);
  }

  lemma ContinueRuns(m: Machine, env: Env, w: World, c: Expr, end: Effect)
    requires EvalExpr(m.calls, env, w, c).Value?
    requires Compiled(m, env.names, Statements(Loop(c, ContinueLoop)))
    ensures var r := EvalExpr(m.calls, env, w, c);
            Returns(m, env, w, end)
            <==> if r.value == Null || r.value == False then end == Finished(Null, r.world)
                else Returns(m, r.env, r.world, end)
  {
    SameNames(m.calls, env, w, c);
    hide Compiled, Returns, EvalExpr, EvalStmt, Round;
    var r, s := EvalExpr(m.calls, env, w, c), Loop(c, ContinueLoop);
    WhileRuns(m, env, w, c, ContinueLoop, end);
    StmtRuns(m, r.env, r.world, s, end);
    forall fuel: nat
      ensures Round(m.calls, fuel, r.env, r.world, |env.names|, c, ContinueLoop)
              == EvalStmt(m.calls, fuel, r.env, r.world, s)
    {
      RoundLeft(m.calls, fuel, r.env, r.world, c);
    }
  }

  lemma SameNames(calls: Calls, env: Env, w: World, e: Expr)
    ensures var r := EvalExpr(calls, env, w, e); r.Value? ==> r.env.names == env.names
  {
  }

  // One round of a for statement, whose hidden locals are the last two, and what follows.
  function ForRound(calls: Calls, fuel: nat, env: Env, w: World, x: string, body: Stmt): Outcome
    requires IsStatement(body) && WellFormed(body) && |env.names| >= 2
  {
    var n := |env.names|;
    var sequence := env.values[n - 2];
    match calls(w, "iterate(_)", [sequence, env.values[n - 1]])
    case Raised(w1) => Failed(w1)
    case Returned(iter, w1) =>
      var env1 := Locals(env.names, env.values[n - 1 := iter]);
      if iter == Null || iter == False then Normal(env1, w1)
      else
        match calls(w1, "iteratorValue(_)", [sequence, iter])
        case Raised(w2) => Failed(w2)
        case Returned(item, w2) =>
          ForRest(calls, fuel, EvalStmt(calls, fuel + 1, Locals(env1.names + [x], env1.values + [item]), w2, body), n,
                  x, body)
  }

  function ForRest(calls: Calls, fuel: nat, o: Outcome, n: nat, x: string, body: Stmt): Outcome
    requires IsStatement(body) && WellFormed(body) && n >= 2
  {
    match o
    case Normal(env, w) => if n <= |env.names| then EvalFor(calls, fuel, Cut(env, n), w, x, body) else OutOfFuel
    case Continued(env, w) => if n <= |env.names| then EvalFor(calls, fuel, Cut(env, n), w, x, body) else OutOfFuel
    case Broke(env, w) => Normal(Cut(env, n), w)
    case _ => o
  }

  lemma ForIs(calls: Calls, fuel: nat, env: Env, w: World, x: string, body: Stmt)
    requires IsStatement(body) && WellFormed(body) && |env.names| >= 2
    ensures EvalFor(calls, 0, env, w, x, body).OutOfFuel?
    ensures EvalFor(calls, fuel + 1, env, w, x, body) == ForRound(calls, fuel, env, w, x, body)
  {
    hide EvalStmt;
  }

  // A for statement whose sequence has no elements ends, and one whose body gives its
  // variable gives the first element.
  lemma ForRuns(m: Machine, env: Env, w: World, x: string, e: Expr, body: Stmt, sequence: Value, w1: World, env1: Env,
                iter: Value, w2: World, end: Effect)
    requires WellFormed(ForIn(x, e, body)) && Compiled(m, env.names, Statements(ForIn(x, e, body)))
    requires EvalExpr(m.calls, env, w, e) == ExprResult.Value(env1, w1, sequence)
    requires m.calls(w1, "iterate(_)", [sequence, Null]) == Returned(iter, w2)
    ensures iter == Null || iter == False ==> (Returns(m, env, w, end) <==> end == Finished(Null, w2))
    ensures iter != Null && iter != False && body == Give(Variable(x)) ==>
              (Returns(m, env, w, end) <==> Answers(m.calls(w2, "iteratorValue(_)", [sequence, iter]), end))
  {
    hide Compiled, Returns, EvalExpr, EvalStmt, EvalFor;
    var s := ForIn(x, e, body);
    StmtRuns(m, env, w, s, end);
    if StmtEnds(m.calls, env, w, s, end) {
      var fuel: nat :| Leads(EvalStmt(m.calls, fuel, env, w, s), end);
      FirstRound(m.calls, fuel, env, w, x, e, body, sequence, w1, env1, iter, w2);
    }
    FirstRound(m.calls, 1, env, w, x, e, body, sequence, w1, env1, iter, w2);
    if Leads(EvalStmt(m.calls, 1, env, w, s), end) { assert StmtEnds(m.calls, env, w, s, end); }
  }

  lemma FirstRound(calls: Calls, fuel: nat, env: Env, w: World, x: string, e: Expr, body: Stmt, sequence: Value,
                   w1: World, env1: Env, iter: Value, w2: World)
    requires WellFormed(ForIn(x, e, body)) && EvalExpr(calls, env, w, e) == ExprResult.Value(env1, w1, sequence)
    requires calls(w1, "iterate(_)", [sequence, Null]) == Returned(iter, w2)
    ensures var o := EvalStmt(calls, fuel, env, w, ForIn(x, e, body));
            var r := calls(w2, "iteratorValue(_)", [sequence, iter]);
            && (fuel == 0 ==> o.OutOfFuel?)
            && (fuel > 0 && (iter == Null || iter == False) ==> o.Normal? && o.world == w2)
            && (fuel > 0 && iter != Null && iter != False && body == Give(Variable(x)) ==>
                  o == if r.Raised? then Failed(r.world) else Gave(r.value, r.world))
  {
    hide EvalExpr, EvalFor, EvalStmt;
    var hidden := Hidden(env1, sequence);
    ForIsFor(calls, fuel, env, w, x, e, body, sequence, w1, env1);
    var n := |hidden.names|;
    assert hidden.values[n - 2] == sequence && hidden.values[n - 1] == Null;
    if fuel > 0 {
      ForIs(calls, fuel - 1, hidden, w1, x, body);
      var r := calls(w2, "iteratorValue(_)", [sequence, iter]);
      if r.Returned? {
        var env2 := Locals(hidden.names, hidden.values[n - 1 := iter]);
        GivesLast(calls, fuel, Locals(env2.names + [x], env2.values + [r.value]), r.world, x, r.value);
      }
    } else {
      ForIs(calls, 0, hidden, w1, x, body);
    }
  }

  lemma ForIsFor(calls: Calls, fuel: nat, env: Env, w: World, x: string, e: Expr, body: Stmt, sequence: Value,
                 w1: World, env1: Env)
    requires WellFormed(ForIn(x, e, body)) && EvalExpr(calls, env, w, e) == ExprResult.Value(env1, w1, sequence)
    ensures EvalStmt(calls, fuel, env, w, ForIn(x, e, body))
            == Leave(|env.names|, EvalFor(calls, fuel, Hidden(env1, sequence), w1, x, body))
  {
    hide EvalExpr, EvalFor;
  }

  lemma GivesLast(calls: Calls, fuel: nat, env: Env, w: World, x: string, v: Value)
    requires env.names != [] && env.names[|env.names| - 1] == x && env.values[|env.names| - 1] == v
    ensures EvalStmt(calls, fuel, env, w, Give(Variable(x))) == Gave(v, w)
  {
  }

  // ----- Which method is called -----

  // How the operators between two operands are spelled in the names of their methods.
  const SPELLED: seq<(BinaryOp, string)> := [
    (DotDot, "..(_)"), (DotDotDot, "...(_)"), (Star, "*(_)"), (Slash, "/(_)"), (Percent, "%(_)"), (Plus, "+(_)"),
    (Minus, "-(_)"), (LtLt, "<<(_)"), (GtGt, ">>(_)"), (Pipe, "|(_)"), (Caret, "^(_)"), (Amp, "&(_)"), (Lt, "<(_)"),
    (Gt, ">(_)"), (LtEq, "<=(_)"), (GtEq, ">=(_)"), (EqEq, "==(_)"), (BangEq, "!=(_)"), (Is, "is(_)")]

  // Every operator is spelled.
  lemma AllSpelled(op: BinaryOp)
    ensures exists i :: 0 <= i < |SPELLED| && SPELLED[i].0 == op
  {
    var i := match op
      case DotDot => 0 case DotDotDot => 1 case Star => 2 case Slash => 3 case Percent => 4 case Plus => 5
      case Minus => 6 case LtLt => 7 case GtGt => 8 case Pipe => 9 case Caret => 10 case Amp => 11 case Lt => 12
      case Gt => 13 case LtEq => 14 case GtEq => 15 case EqEq => 16 case BangEq => 17 case Is => 18;
    assert SPELLED[i].0 == op;
  }

  // A binary operator calls the method of its left operand that is spelled like it.
  lemma BinaryRuns(m: Machine, env: Env, w: World, i: nat, l: Expr, r: Expr, end: Effect)
    requires i < |SPELLED| && Compiled(m, env.names, Result(Binary(SPELLED[i].0, l, r)))
    requires EvalExpr(m.calls, env, w, l).Value?
    requires var a := EvalExpr(m.calls, env, w, l); EvalExpr(m.calls, a.env, a.world, r).Value?
    ensures var a := EvalExpr(m.calls, env, w, l);
            var b := EvalExpr(m.calls, a.env, a.world, r);
            Returns(m, env, w, end) <==> Answers(m.calls(b.world, SPELLED[i].1, [a.value, b.value]), end)
  {
    hide Compiled, Returns, BinaryName;
    ExprRuns(m, env, w, Binary(SPELLED[i].0, l, r), end);
    BinaryIs(i);
  }

  lemma BinaryIs(i: nat)
    requires i < |SPELLED|
    ensures BinaryName(SPELLED[i].0) == SPELLED[i].1
  {
  }

  // A prefix operator calls the method without arguments of that name, a getter the one
  // of its name, and a setter the one with "=" after it.
  lemma UnaryRuns(m: Machine, env: Env, w: World, uop: UnaryOp, e: Expr, end: Effect)
    requires Compiled(m, env.names, Result(Unary(uop, e))) && EvalExpr(m.calls, env, w, e).Value?
    ensures var a := EvalExpr(m.calls, env, w, e);
            Returns(m, env, w, end)
            <==> Answers(m.calls(a.world, if uop == Neg then "-" else if uop == Not then "!" else "~", [a.value]), end)
  {
    hide Compiled, Returns;
    ExprRuns(m, env, w, Unary(uop, e), end);
  }

  lemma GetRuns(m: Machine, env: Env, w: World, e: Expr, name: string, end: Effect)
    requires Compiled(m, env.names, Result(Get(e, name))) && EvalExpr(m.calls, env, w, e).Value?
    ensures var a := EvalExpr(m.calls, env, w, e);
            Returns(m, env, w, end) <==> Answers(m.calls(a.world, name, [a.value]), end)
  {
    hide Compiled, Returns;
    ExprRuns(m, env, w, Get(e, name), end);
  }

  lemma SetRuns(m: Machine, env: Env, w: World, l: Expr, name: string, r: Expr, end: Effect)
    requires Compiled(m, env.names, Result(Set(l, name, r))) && EvalExpr(m.calls, env, w, l).Value?
    requires var a := EvalExpr(m.calls, env, w, l); EvalExpr(m.calls, a.env, a.world, r).Value?
    ensures var a := EvalExpr(m.calls, env, w, l);
            var b := EvalExpr(m.calls, a.env, a.world, r);
            Returns(m, env, w, end) <==> Answers(m.calls(b.world, name + "=(_)", [a.value, b.value]), end)
  {
    hide Compiled, Returns;
    ExprRuns(m, env, w, Set(l, name, r), end);
  }

  // ----- Which variable a name is -----

  // A name that is no local is a variable of the module: null until it is assigned, and
  // then what was assigned last.
  lemma ModuleVariable(calls: Calls, env: Env, w: World, x: string, y: string, e: Expr)
    requires x !in env.names && y !in env.names && x != y
    ensures x !in w.globals ==> EvalExpr(calls, env, w, Variable(x)) == ExprResult.Value(env, w, Null)
    ensures EvalExpr(calls, env, w, e).Value? ==>
              var r := EvalExpr(calls, env, w, Assign(x, e));
              && r.Value? && r.value == EvalExpr(calls, env, w, e).value && r.env == EvalExpr(calls, env, w, e).env
              && EvalExpr(calls, r.env, r.world, Variable(x)) == r
              && EvalExpr(calls, r.env, r.world, Variable(y)).value
                 == EvalExpr(calls, r.env, EvalExpr(calls, env, w, e).world, Variable(y)).value
  {
    hide EvalCall, BinaryName, UnaryName, SetterName;
  }

  // A name that is one is the last of that name.
  lemma LocalVariable(calls: Calls, env: Env, w: World, x: string, i: nat)
    requires i < |env.names| && env.names[i] == x && forall j :: i < j < |env.names| ==> env.names[j] != x
    ensures EvalExpr(calls, env, w, Variable(x)) == ExprResult.Value(env, w, env.values[i])
  {
    hide EvalCall, BinaryName, UnaryName, SetterName;
    assert Innermost(env.names, x) == i;
  }
}
