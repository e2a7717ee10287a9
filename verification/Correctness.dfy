/** Compiled functions return what direct evaluation of their bodies returns, within
    the stack space that the compiler asks for. */
module Correctness {
  import opened Syntax
  import opened Semantics
  import opened Bytes
  import opened Bytecode
  import opened CodeGen
  import opened Interpreter
  import opened SimulateExpr
  import opened SimulateStmt
  import opened Slots

  // ----- Function bodies -----

  const NO_LOOP := LoopInfo(0, 0, Pending)

  // The code of a function whose slots are [names], the receiver first.
  function GenBody(t: Tables, names: seq<string>, body: Body): seq<byte> {
    match body
    case Result(e) => GenExpr(t, names, e) + [CODE_RETURN] + [CODE_END]
    case Statements(s) => GenStmt(t, names, 0, NO_LOOP, s) + [CODE_NULL] + [CODE_RETURN] + [CODE_END]
  }

  // A body returns, aborts, or needs more fuel.
  function EvalBody(calls: Calls, fuel: nat, env: Env, w: World, body: Body): Outcome
    requires body.Statements? ==> WellFormed(body.s)
  {
    match body
    case Result(e) =>
      var r := EvalExpr(calls, env, w, e);
      if r.Abort? then Failed(r.world) else Gave(r.value, r.world)
    case Statements(s) =>
      var o := EvalStmt(calls, fuel, env, w, s);
      if o.Normal? then Gave(Null, o.world) else o
  }

  // The compiler accepted [body], its jumps are shorter than 2^16 bytes, and the
  // tables have at most 2^16 entries each.
  ghost predicate Compiled(m: Machine, names: seq<string>, body: Body) {
    match m
    case Machine(code, tables, _) =>
      && TablesFit(tables) && |names| <= 256 && At(code, 0, GenBody(tables, names, body))
      && match body
         case Result(e) => CoversExpr(tables, names, e) && JumpsFitExpr(names, e)
         case Statements(s) =>
           && LocalsFit(names, s) && WellFormed(s) && CoversStmt(tables, names, s)
           && JumpsFitStmt(names, 0, s) && !Escapes(s)
  }

  // The room a call reserves: the arguments and the compiler's high-water mark.
  function Reserved(names: seq<string>, body: Body): (r: nat)
    ensures r >= 1
  {
    |names| + MaxSlots(names, body)
  }

  function Final(o: Outcome): Effect {
    match o
    case Gave(v, w) => Finished(v, w)
    case Failed(w) => Crashed(w)
    case _ => Stuck
  }

  // ----- One run -----

  // Within [fuel], the machine ends as the body does, or is still running after
  // [fuel] steps.
  lemma {:induction false} SimBody(m: Machine, fuel: nat, env: Env, w: World, body: Body) returns (k: nat)
    requires Compiled(m, env.names, body)
    ensures var o := EvalBody(m.calls, fuel, env, w, body);
            var bound := Reserved(env.names, body) - 1;
            && (o.OutOfFuel? ==> k >= fuel && Runs(m, State(0, env.values, w), k, bound))
            && (!o.OutOfFuel? ==> (o.Gave? || o.Failed?) && Ends(m, State(0, env.values, w), k, Final(o), bound))
  {
    hide *;
    SlotsReserved(env.names, body);
    CompiledWellFormed(m, env.names, body);
    EvalBodyIs(m.calls, fuel, env, w, body);
    match body
    case Result(e) => k := SimResult(m, fuel, env, w, e, Reserved(env.names, body) - 1);
    case Statements(s) => k := SimStatements(m, fuel, env, w, s, Reserved(env.names, body) - 1);
  }

  lemma CompiledWellFormed(m: Machine, names: seq<string>, body: Body)
    requires Compiled(m, names, body)
    ensures body.Statements? ==> WellFormed(body.s)
  {
    hide WellFormed;
  }

  lemma SlotsReserved(names: seq<string>, body: Body)
    ensures Reserved(names, body) == |names| + MaxSlots(names, body)
    ensures body.Result? ==> HeightExpr(body.e) < MaxSlots(names, body)
    ensures body.Statements? ==>
              HeightStmt(names, body.s) < MaxSlots(names, body)
                  && |Declared(names, body.s)| - |names| + 1 < MaxSlots(names, body)
  {
    hide HeightExpr, HeightStmt, Declared;
    match body
    case Result(e) => PeakOverHeight(e);
    case Statements(s) =>
      PeakOverHeightStmt(names, s);
  }

  lemma EvalBodyIs(calls: Calls, fuel: nat, env: Env, w: World, body: Body)
    requires body.Statements? ==> WellFormed(body.s)
    ensures body.Result? ==>
              var r := EvalExpr(calls, env, w, body.e);
              EvalBody(calls, fuel, env, w, body) == if r.Abort? then Failed(r.world) else Gave(r.value, r.world)
    ensures body.Statements? ==>
              var o := EvalStmt(calls, fuel, env, w, body.s);
              EvalBody(calls, fuel, env, w, body) == if o.Normal? then Gave(Null, o.world) else o
  {
    hide EvalExpr, EvalStmt;
  }

  lemma {:induction false} SimResult(m: Machine, fuel: nat, env: Env, w: World, e: Expr, bound: nat) returns (k: nat)
    requires Compiled(m, env.names, Result(e)) && |env.names| + HeightExpr(e) <= bound
    ensures var o := EvalBody(m.calls, fuel, env, w, Result(e));
            (o.Gave? || o.Failed?) && Ends(m, State(0, env.values, w), k, Final(o), bound)
  {
    hide *;
    ResultReady(m, env.names, e, bound);
    EvalBodyIs(m.calls, fuel, env, w, Result(e));
    k := SimTop(m, env, w, 0, e, bound);
    var at := SizeExpr(env.names, e);
    match EvalExpr(m.calls, env, w, e)
    case Value(env', w', v) =>
      ReturnStep(m, at, env'.values, v, w', bound);
      ReachEnds(m, State(0, env.values, w), k, State(at, env'.values + [v], w'), 0, Finished(v, w'), bound);
      FinalIs(Gave(v, w'), v, w');
    case Abort(w') => FinalIs(Failed(w'), Null, w');
  }

  lemma ResultReady(m: Machine, names: seq<string>, e: Expr, bound: nat)
    requires Compiled(m, names, Result(e)) && |names| + HeightExpr(e) <= bound
    ensures Ready(m, names, 0, e, 0, bound) && |names| < bound
    ensures At(m.code, SizeExpr(names, e), [CODE_RETURN])
  {
    hide GenExpr, SizeExpr, At, CoversExpr, JumpsFitExpr, HeightExpr;
    AtConcat3(m.code, 0, GenExpr(m.tables, names, e), [CODE_RETURN], [CODE_END]);
  }

  lemma FinalIs(o: Outcome, v: Value, w: World)
    ensures o == Gave(v, w) ==> Final(o) == Finished(v, w)
    ensures o == Failed(w) ==> Final(o) == Crashed(w)
  {
  }

  lemma {:induction false} SimStatements(m: Machine, fuel: nat, env: Env, w: World, s: Stmt, bound: nat)
    returns (k: nat)
    requires Compiled(m, env.names, Statements(s)) && WellFormed(s)
    requires |env.names| + HeightStmt(env.names, s) <= bound && |Declared(env.names, s)| < bound
    ensures var o := EvalBody(m.calls, fuel, env, w, Statements(s));
            && (o.OutOfFuel? ==> k >= fuel && Runs(m, State(0, env.values, w), k, bound))
            && (!o.OutOfFuel? ==> (o.Gave? || o.Failed?) && Ends(m, State(0, env.values, w), k, Final(o), bound))
  {
    hide *;
    StatementsReady(m, env.names, s, bound);
    EvalBodyIs(m.calls, fuel, env, w, Statements(s));
    k := SimStmt(m, fuel, env, w, 0, NO_LOOP, s, bound);
    var start, at := State(0, env.values, w), SizeStmt(env.names, 0, s);
    var o := EvalStmt(m.calls, fuel, env, w, s);
    StaysInside(m, start, k, at, fuel, env, w, s, o, bound);
    match o
    case Normal(env', w') =>
      NullStep(m, at, env'.values, w', bound);
      ReturnStep(m, at + 1, env'.values, Null, w', bound);
      ReachTrans(m, start, k, State(at, env'.values, w'), 1, State(at + 1, env'.values + [Null], w'), bound);
      ReachEnds(m, start, k + 1, State(at + 1, env'.values + [Null], w'), 0, Finished(Null, w'), bound);
      k := k + 1;
      FinalIs(Gave(Null, w'), Null, w');
    case Gave(v, w') => FinalIs(o, v, w');
    case Failed(w') => FinalIs(o, Null, w');
    case _ =>
  }

  lemma StatementsReady(m: Machine, names: seq<string>, s: Stmt, bound: nat)
    requires Compiled(m, names, Statements(s)) && |names| + HeightStmt(names, s) <= bound
    ensures ReadyStmt(m, names, 0, NO_LOOP, s, bound) && NO_LOOP.locals == 0
    ensures At(m.code, SizeStmt(names, 0, s), [CODE_NULL]) && At(m.code, SizeStmt(names, 0, s) + 1, [CODE_RETURN])
  {
    hide GenStmt, SizeStmt, At, CoversStmt, JumpsFitStmt, HeightStmt, LocalsFit, WellFormed, Escapes;
    StmtSize(m.tables, names, 0, NO_LOOP, s);
    var code := GenStmt(m.tables, names, 0, NO_LOOP, s);
    AtConcat3(m.code, 0, code + [CODE_NULL], [CODE_RETURN], [CODE_END]);
    AtConcat(m.code, 0, code, [CODE_NULL]);
  }

  // Outside any loop, a statement ends the function or goes on after it.
  lemma {:induction false} StaysInside(
      m: Machine, start: State, k: nat, at: nat, fuel: nat, env: Env, w: World, s: Stmt, o: Outcome, bound: nat)
    requires WellFormed(s) && o == EvalStmt(m.calls, fuel, env, w, s)
    requires Delivers(m, start, k, at, NO_LOOP, fuel, o, bound)
    requires |Declared(env.names, s)| < bound
    ensures !o.Broke? && !o.Continued?
    ensures o.Normal? ==> |o.env.values| < bound && Reach(m, start, k, State(at, o.env.values, o.world), bound)
    ensures o.Gave? ==> Ends(m, start, k, Finished(o.value, o.world), bound)
    ensures o.Failed? ==> Ends(m, start, k, Crashed(o.world), bound)
    ensures o.OutOfFuel? ==> k >= fuel && Runs(m, start, k, bound)
  {
    hide EvalStmt, Reach, Ends, Runs, Declared;
    assert InScope(env.names, s, o);
  }

  // ----- Whole runs -----

  // A call of the function on [env] ends with [end].
  ghost predicate Returns(m: Machine, env: Env, w: World, end: Effect) {
    !end.Next? && exists k, bound :: Ends(m, State(0, env.values, w), k, end, bound)
  }

  // Direct evaluation of the body ends with [end], for some amount of fuel.
  ghost predicate Evaluates(calls: Calls, env: Env, w: World, body: Body, end: Effect)
    requires body.Statements? ==> WellFormed(body.s)
  {
    exists fuel: nat :: !EvalBody(calls, fuel, env, w, body).OutOfFuel?
        && Final(EvalBody(calls, fuel, env, w, body)) == end
  }

  // Compiled code ends with a result exactly when evaluation does, and it is the
  // same result; so it also runs forever exactly when evaluation does, and never
  // accesses anything outside the code, the stack or a table.
  lemma {:induction false} CompilerCorrect(m: Machine, env: Env, w: World, body: Body, end: Effect)
    requires body.Statements? ==> WellFormed(body.s)
    requires Compiled(m, env.names, body)
    ensures Returns(m, env, w, end) <==> Evaluates(m.calls, env, w, body, end)
    ensures Returns(m, env, w, end) ==> end.Finished? || end.Crashed?
  {
    hide Ends, Runs, EvalBody, Compiled, Reserved, WellFormed;
    if Returns(m, env, w, end) {
      var j, bound :| Ends(m, State(0, env.values, w), j, end, bound);
      var fuel := j + 1;
      var k := SimBody(m, fuel, env, w, body);
      var o := EvalBody(m.calls, fuel, env, w, body);
      if o.OutOfFuel? {
        EndsBeforeRuns(m, State(0, env.values, w), j, end, k, bound, Reserved(env.names, body) - 1);
        assert false;
      } else {
        EndsOnce(m, State(0, env.values, w), j, end, k, Final(o), bound, Reserved(env.names, body) - 1);
      }
    }
    if Evaluates(m.calls, env, w, body, end) {
      var fuel: nat :| !EvalBody(m.calls, fuel, env, w, body).OutOfFuel?
          && Final(EvalBody(m.calls, fuel, env, w, body)) == end;
      var k := SimBody(m, fuel, env, w, body);
    }
  }

  // No state of any run uses more stack than the call reserved.
  lemma {:induction false} StackSafe(m: Machine, env: Env, w: World, body: Body, k: nat, s: State, bound: nat)
    requires body.Statements? ==> WellFormed(body.s)
    requires Compiled(m, env.names, body)
    requires Reach(m, State(0, env.values, w), k, s, bound)
    ensures |s.stack| < Reserved(env.names, body)
  {
    hide Ends, Runs, Reach, EvalBody, Compiled, WellFormed, MaxSlots;
    var j := SimBody(m, k + 1, env, w, body);
    var o := EvalBody(m.calls, k + 1, env, w, body);
    var limit := Reserved(env.names, body) - 1;
    if o.OutOfFuel? {
      WithinRun(m, State(0, env.values, w), k, s, bound, j, limit);
    } else {
      WithinEnd(m, State(0, env.values, w), k, s, bound, j, Final(o), limit);
    }
  }

  lemma {:induction false} WithinRun(m: Machine, start: State, k: nat, s: State, bound: nat, j: nat, limit: nat)
    requires Reach(m, start, k, s, bound) && Runs(m, start, j, limit) && k <= j
    ensures |s.stack| <= limit
    decreases k
  {
    if k > 0 { WithinRun(m, Step(m, start).state, k - 1, s, bound, j - 1, limit); }
  }

  lemma {:induction false} WithinEnd(
      m: Machine, start: State, k: nat, s: State, bound: nat, j: nat, end: Effect, limit: nat)
    requires Reach(m, start, k, s, bound) && Ends(m, start, j, end, limit) && !end.Next?
    ensures |s.stack| <= limit
    decreases k
  {
    if k > 0 { WithinEnd(m, Step(m, start).state, k - 1, s, bound, j - 1, end, limit); }
  }
}
