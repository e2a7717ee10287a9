/** Running the code of a statement does what direct evaluation of it does: the
    same locals, the same world, the same way out. */
module SimulateStmt {
  import opened Syntax
  import opened Semantics
  import opened Bytes
  import opened Bytecode
  import opened CodeGen
  import opened Interpreter
  import opened SimulateExpr

  // ----- What the encoding can hold -----

  predicate CoversStmt(t: Tables, names: seq<string>, s: Stmt)
    decreases s
  {
    match s
    case Skip => true
    case Seq(first, rest) => CoversStmt(t, names, first) && CoversStmt(t, Declared(names, first), rest)
    case Evaluate(e) => CoversExpr(t, names, e)
    case Declare(_, init) => CoversExpr(t, names, init)
    case Block(body) => CoversStmt(t, names, body)
    case IfThen(c, yes) => CoversExpr(t, names, c) && CoversStmt(t, names, yes)
    case IfElse(c, yes, no) => CoversExpr(t, names, c) && CoversStmt(t, names, yes) && CoversStmt(t, names, no)
    case Loop(c, body) => CoversExpr(t, names, c) && CoversStmt(t, names, body)
    case ForIn(x, sequence, body) =>
      CoversExpr(t, names, sequence) && CoversStmt(t, ForNames(names, x), body)
      && ITERATE in t.methods && ITERATOR_VALUE in t.methods
    case BreakLoop => true
    case ContinueLoop => true
    case Give(e) => CoversExpr(t, names, e)
  }

  // Every jump in the code of [s] is shorter than 2^16 bytes. The longest jump of
  // a loop is the one back to its start, over the whole loop.
  predicate JumpsFitStmt(names: seq<string>, kept: nat, s: Stmt)
    decreases s
  {
    match s
    case Skip => true
    case Seq(first, rest) => JumpsFitStmt(names, kept, first) && JumpsFitStmt(Declared(names, first), kept, rest)
    case Evaluate(e) => JumpsFitExpr(names, e)
    case Declare(_, init) => JumpsFitExpr(names, init)
    case Block(body) => JumpsFitStmt(names, kept, body)
    case IfThen(c, yes) =>
      JumpsFitExpr(names, c) && JumpsFitStmt(names, kept, yes) && SizeStmt(names, kept, yes) < 0x1_0000
    case IfElse(c, yes, no) =>
      JumpsFitExpr(names, c) && JumpsFitStmt(names, kept, yes) && JumpsFitStmt(names, kept, no)
      && SizeStmt(names, kept, yes) + 3 < 0x1_0000 && SizeStmt(names, kept, no) < 0x1_0000
    case Loop(c, body) =>
      JumpsFitExpr(names, c) && JumpsFitStmt(names, |names|, body) && SizeLoop(names, c, body) < 0x1_0000
    case ForIn(x, sequence, body) =>
      JumpsFitExpr(names, sequence) && JumpsFitStmt(ForNames(names, x), |names| + 2, body)
      && SizeForLoop(names, x, body) < 0x1_0000
    case BreakLoop => true
    case ContinueLoop => true
    case Give(e) => JumpsFitExpr(names, e)
  }

  // At most 256 locals are in scope at once.
  predicate LocalsFit(names: seq<string>, s: Stmt)
    decreases s
  {
    && |names| <= 256
    && match s
       case Seq(first, rest) => LocalsFit(names, first) && LocalsFit(Declared(names, first), rest)
       case Declare(_, _) => |names| < 256
       case Block(body) => LocalsFit(names, body)
       case IfThen(_, yes) => LocalsFit(names, yes)
       case IfElse(_, yes, no) => LocalsFit(names, yes) && LocalsFit(names, no)
       case Loop(_, body) => LocalsFit(names, body)
       case ForIn(x, _, body) => LocalsFit(ForNames(names, x), body)
       case _ => true
  }

  // Whether a break or continue in [s] belongs to a loop around [s].
  predicate Escapes(s: Stmt) {
    match s
    case Seq(first, rest) => Escapes(first) || Escapes(rest)
    case Block(body) => Escapes(body)
    case IfThen(_, yes) => Escapes(yes)
    case IfElse(_, yes, no) => Escapes(yes) || Escapes(no)
    case BreakLoop => true
    case ContinueLoop => true
    case _ => false
  }

  // How far running [s] raises the stack above the locals in scope.
  function HeightStmt(names: seq<string>, s: Stmt): nat
    decreases s
  {
    match s
    case Skip => 0
    case Seq(first, rest) =>
      Max(HeightStmt(names, first), |Declared(names, first)| - |names| + HeightStmt(Declared(names, first), rest))
    case Evaluate(e) => HeightExpr(e)
    case Declare(_, init) => HeightExpr(init)
    case Block(body) => HeightStmt(names, body)
    case IfThen(c, yes) => Max(HeightExpr(c), HeightStmt(names, yes))
    case IfElse(c, yes, no) => Max(HeightExpr(c), Max(HeightStmt(names, yes), HeightStmt(names, no)))
    case Loop(c, body) => Max(HeightExpr(c), HeightStmt(names, body))
    case ForIn(x, sequence, body) => Max(HeightExpr(sequence), Max(4, 3 + HeightStmt(ForNames(names, x), body)))
    case BreakLoop => 0
    case ContinueLoop => 0
    case Give(e) => HeightExpr(e)
  }

  // The innermost loop around [s], which is at offset [at] inside it.
  predicate Inside(names: seq<string>, at: nat, loop: LoopInfo, s: Stmt) {
    match loop.exit
    case Pending => !Escapes(s)
    case To(end) =>
      Escapes(s) ==>
        loop.locals <= |names| && loop.start <= at && at + SizeStmt(names, loop.locals, s) <= end
        && end - loop.start < 0x1_0000
  }

  // The code of [s] is at [at], its operands and jumps fit their encodings, and
  // there is room for it above the locals.
  ghost predicate ReadyStmt(m: Machine, names: seq<string>, at: nat, loop: LoopInfo, s: Stmt, bound: nat) {
    match m
    case Machine(code, tables, _) =>
      && TablesFit(tables) && LocalsFit(names, s) && WellFormed(s)
      && At(code, at, GenStmt(tables, names, at, loop, s))
      && CoversStmt(tables, names, s) && JumpsFitStmt(names, loop.locals, s)
      && Inside(names, at, loop, s)
      && |names| + HeightStmt(names, s) <= bound
  }

  // From [start], [k] steps deliver the outcome [o]. A break is at the end of its
  // loop and a continue at its start, both with the locals of the loop discarded.
  // Without enough fuel the machine still runs, for at least [fuel] steps.
  ghost predicate Delivers(
      m: Machine, start: State, k: nat, at: nat, loop: LoopInfo, fuel: nat, o: Outcome, bound: nat)
  {
    match o
    case Normal(env, w) => Reach(m, start, k, State(at, env.values, w), bound)
    case Broke(env, w) =>
      loop.exit.To? && loop.locals <= |env.values|
      && Reach(m, start, k, State(loop.exit.offset, env.values[..loop.locals], w), bound)
    case Continued(env, w) =>
      loop.exit.To? && loop.locals <= |env.values|
      && Reach(m, start, k, State(loop.start, env.values[..loop.locals], w), bound)
    case Gave(v, w) => Ends(m, start, k, Finished(v, w), bound)
    case Failed(w) => Ends(m, start, k, Crashed(w), bound)
    case OutOfFuel => k >= fuel && Runs(m, start, k, bound)
  }

  // ----- Single instructions -----

  lemma PopStep(m: Machine, at: nat, st: seq<Value>, v: Value, w: World, bound: nat)
    requires At(m.code, at, [CODE_POP]) && |st| < bound
    ensures Reach(m, State(at, st + [v], w), 1, State(at + 1, st, w), bound)
  {
    AtByte(m.code, at, [CODE_POP], 0);
    assert (st + [v])[..|st|] == st;
    assert Step(m, State(at, st + [v], w)) == Next(State(at + 1, st, w));
    assert Reach(m, State(at + 1, st, w), 0, State(at + 1, st, w), bound);
  }

  lemma {:induction false} PopsStep(m: Machine, at: nat, st: seq<Value>, n: nat, w: World, bound: nat)
    requires n <= |st| <= bound && At(m.code, at, Pops(|st| - n))
    ensures Reach(m, State(at, st, w), |st| - n, State(at + |st| - n, st[..n], w), bound)
    decreases |st|
  {
    hide At, Step, Reach;
    if |st| == n {
      NoStep(m, at, st, w, bound);
      assert st[..n] == st;
    } else {
      var top := |st| - 1;
      AtConcat(m.code, at, [CODE_POP], Pops(top - n));
      assert st == st[..top] + [st[top]] && st[..top][..n] == st[..n];
      PopStep(m, at, st[..top], st[top], w, bound);
      PopsStep(m, at + 1, st[..top], n, w, bound);
      ReachTrans(m, State(at, st, w), 1, State(at + 1, st[..top], w), top - n, State(at + |st| - n, st[..n], w), bound);
    }
  }

  lemma NoStep(m: Machine, at: nat, st: seq<Value>, w: World, bound: nat)
    requires |st| <= bound
    ensures Reach(m, State(at, st, w), 0, State(at, st, w), bound) && Runs(m, State(at, st, w), 0, bound)
  {
  }

  lemma NullStep(m: Machine, at: nat, st: seq<Value>, w: World, bound: nat)
    requires At(m.code, at, [CODE_NULL]) && |st| < bound
    ensures Reach(m, State(at, st, w), 1, State(at + 1, st + [Null], w), bound)
  {
    AtByte(m.code, at, [CODE_NULL], 0);
    assert Step(m, State(at, st, w)) == Next(State(at + 1, st + [Null], w));
    assert Reach(m, State(at + 1, st + [Null], w), 0, State(at + 1, st + [Null], w), bound);
  }

  lemma ReturnStep(m: Machine, at: nat, st: seq<Value>, v: Value, w: World, bound: nat)
    requires At(m.code, at, [CODE_RETURN]) && |st| < bound
    ensures Ends(m, State(at, st + [v], w), 0, Finished(v, w), bound)
  {
    AtByte(m.code, at, [CODE_RETURN], 0);
  }

  lemma FrameEmpty(env: Env)
    ensures Frame(env, []) == env.values
    ensures forall v :: Frame(env, [] + [v]) == env.values + [v]
  {
    assert forall v: Value :: [] + [v] == [v];
  }

  // ----- Continuing a run -----

  lemma {:induction false} ThenDelivers(
      m: Machine, start: State, j: nat, mid: State, i: nat, at: nat, loop: LoopInfo, fuel: nat, o: Outcome, bound: nat)
    requires Reach(m, start, j, mid, bound) && Delivers(m, mid, i, at, loop, fuel, o, bound)
    ensures Delivers(m, start, j + i, at, loop, fuel + j, o, bound)
  {
    match o
    case Normal(env, w) => ReachTrans(m, start, j, mid, i, State(at, env.values, w), bound);
    case Broke(env, w) => ReachTrans(m, start, j, mid, i, State(loop.exit.offset, env.values[..loop.locals], w), bound);
    case Continued(env, w) => ReachTrans(m, start, j, mid, i, State(loop.start, env.values[..loop.locals], w), bound);
    case Gave(v, w) => ReachEnds(m, start, j, mid, i, Finished(v, w), bound);
    case Failed(w) => ReachEnds(m, start, j, mid, i, Crashed(w), bound);
    case OutOfFuel => ReachRuns(m, start, j, mid, i, bound);
  }

  // An outcome other than Normal does not depend on where the statement ends, nor
  // one other than Broke and Continued on the loop around it.
  lemma DeliversElsewhere(
      m: Machine, start: State, k: nat, at: nat, loop: LoopInfo, fuel: nat, o: Outcome, bound: nat, at': nat,
      loop': LoopInfo, fuel': nat)
    requires Delivers(m, start, k, at, loop, fuel, o, bound)
    requires o.Normal? ==> at == at'
    requires o.Broke? || o.Continued? ==> loop == loop'
    requires o.OutOfFuel? ==> fuel' <= fuel
    ensures Delivers(m, start, k, at', loop', fuel', o, bound)
  {
  }

  lemma NormalReached(m: Machine, start: State, k: nat, at: nat, loop: LoopInfo, fuel: nat, o: Outcome, bound: nat)
    requires Delivers(m, start, k, at, loop, fuel, o, bound) && o.Normal?
    ensures Reach(m, start, k, State(at, o.env.values, o.world), bound)
  {
  }

  lemma ReachedNormal(
      m: Machine, start: State, k: nat, at: nat, loop: LoopInfo, fuel: nat, env: Env, w: World, bound: nat)
    requires Reach(m, start, k, State(at, env.values, w), bound)
    ensures Delivers(m, start, k, at, loop, fuel, Normal(env, w), bound)
  {
  }

  // The value of an expression statement's expression, or the failure it causes.
  lemma {:induction false} SimTop(m: Machine, env: Env, w: World, at: nat, e: Expr, bound: nat) returns (k: nat)
    requires Ready(m, env.names, at, e, 0, bound)
    ensures match EvalExpr(m.calls, env, w, e)
            case Value(env', w', v) =>
              Reach(m, State(at, env.values, w), k, State(at + SizeExpr(env.names, e), env'.values + [v], w'), bound)
            case Abort(w') => Ends(m, State(at, env.values, w), k, Crashed(w'), bound)
  {
    hide SimulateExpr.Ready, SizeExpr, EvalExpr, Reach, Ends;
    FrameEmpty(env);
    k := SimExpr(m, env, w, at, e, [], bound);
    match EvalExpr(m.calls, env, w, e)
    case Value(env', _, _) => FrameEmpty(env');
    case Abort(_) =>
  }

  lemma FailedDelivers(m: Machine, start: State, k: nat, at: nat, loop: LoopInfo, fuel: nat, w: World, bound: nat)
    requires Ends(m, start, k, Crashed(w), bound)
    ensures Delivers(m, start, k, at, loop, fuel, Failed(w), bound)
  {
  }

  // ----- Statements -----

  // The machine does in [k] steps what direct evaluation of [s] does.
  lemma {:induction false} SimStmt(
      m: Machine, fuel: nat, env: Env, w: World, at: nat, loop: LoopInfo, s: Stmt, bound: nat) returns (k: nat)
    requires WellFormed(s) && ReadyStmt(m, env.names, at, loop, s, bound)
    ensures Delivers(m, State(at, env.values, w), k, at + SizeStmt(env.names, loop.locals, s), loop, fuel,
                     EvalStmt(m.calls, fuel, env, w, s), bound)
    decreases fuel, s, 2
  {
    hide Delivers, ReadyStmt, EvalStmt, SizeStmt;
    match s
    case Skip => k := SimSkip(m, fuel, env, w, at, loop, bound);
    case Seq(first, rest) => k := SimSeq(m, fuel, env, w, at, loop, first, rest, bound);
    case Evaluate(e) => k := SimEvaluate(m, fuel, env, w, at, loop, e, bound);
    case Declare(x, init) => k := SimDeclare(m, fuel, env, w, at, loop, x, init, bound);
    case Block(body) => k := SimBlock(m, fuel, env, w, at, loop, body, bound);
    case IfThen(c, yes) => k := SimIfThen(m, fuel, env, w, at, loop, c, yes, bound);
    case IfElse(c, yes, no) => k := SimIfElse(m, fuel, env, w, at, loop, c, yes, no, bound);
    case Loop(c, body) => k := SimWhile(m, fuel, env, w, at, loop, c, body, bound);
    case ForIn(x, sequence, body) => k := SimForIn(m, fuel, env, w, at, loop, x, sequence, body, bound);
    case BreakLoop => k := SimEscape(m, fuel, env, w, at, loop, BreakLoop, bound);
    case ContinueLoop => k := SimEscape(m, fuel, env, w, at, loop, ContinueLoop, bound);
    case Give(e) => k := SimGive(m, fuel, env, w, at, loop, e, bound);
  }

  lemma {:induction false} SimSkip(m: Machine, fuel: nat, env: Env, w: World, at: nat, loop: LoopInfo, bound: nat)
    returns (k: nat)
    requires ReadyStmt(m, env.names, at, loop, Skip, bound)
    ensures Delivers(m, State(at, env.values, w), k, at + SizeStmt(env.names, loop.locals, Skip), loop, fuel,
                     EvalStmt(m.calls, fuel, env, w, Skip), bound)
  {
    k := 0;
    NoStep(m, at, env.values, w, bound);
  }

  // ----- One expression and one instruction -----

  lemma EvaluateForm(m: Machine, fuel: nat, env: Env, w: World, at: nat, loop: LoopInfo, e: Expr, bound: nat)
    requires ReadyStmt(m, env.names, at, loop, Evaluate(e), bound)
    ensures Ready(m, env.names, at, e, 0, bound) && At(m.code, at + SizeExpr(env.names, e), [CODE_POP])
    ensures SizeStmt(env.names, loop.locals, Evaluate(e)) == SizeExpr(env.names, e) + 1 && |env.names| < bound
    ensures EvalStmt(m.calls, fuel, env, w, Evaluate(e))
         == (match EvalExpr(m.calls, env, w, e)
              case Value(env', w', _) => Normal(env', w') case Abort(w') => Failed(w'))
  {
    hide EvalExpr, GenExpr, SizeExpr, CoversExpr, JumpsFitExpr, HeightExpr, At;
    AtConcat(m.code, at, GenExpr(m.tables, env.names, e), [CODE_POP]);
  }

  lemma {:induction false} SimEvaluate(
      m: Machine, fuel: nat, env: Env, w: World, at: nat, loop: LoopInfo, e: Expr, bound: nat) returns (k: nat)
    requires ReadyStmt(m, env.names, at, loop, Evaluate(e), bound)
    ensures Delivers(m, State(at, env.values, w), k, at + SizeStmt(env.names, loop.locals, Evaluate(e)), loop, fuel,
                     EvalStmt(m.calls, fuel, env, w, Evaluate(e)), bound)
  {
    hide *;
    EvaluateForm(m, fuel, env, w, at, loop, e, bound);
    var start := State(at, env.values, w);
    var at1 := at + SizeExpr(env.names, e);
    k := SimTop(m, env, w, at, e, bound);
    match EvalExpr(m.calls, env, w, e)
    case Value(env', w', v) =>
      PopStep(m, at1, env'.values, v, w', bound);
      ReachTrans(m, start, k, State(at1, env'.values + [v], w'), 1, State(at1 + 1, env'.values, w'), bound);
      k := k + 1;
      ReachedNormal(m, start, k, at1 + 1, loop, fuel, env', w', bound);
    case Abort(w') => FailedDelivers(m, start, k, at1 + 1, loop, fuel, w', bound);
  }

  lemma DeclareForm(m: Machine, fuel: nat, env: Env, w: World, at: nat, loop: LoopInfo, x: string, e: Expr, bound: nat)
    requires ReadyStmt(m, env.names, at, loop, Declare(x, e), bound)
    ensures Ready(m, env.names, at, e, 0, bound)
    ensures SizeStmt(env.names, loop.locals, Declare(x, e)) == SizeExpr(env.names, e)
    ensures EvalStmt(m.calls, fuel, env, w, Declare(x, e))
         == (match EvalExpr(m.calls, env, w, e)
              case Value(env', w', v) => Normal(Bind(env', x, v), w') case Abort(w') => Failed(w'))
    ensures forall env': Env, v :: Bind(env', x, v).values == env'.values + [v]
  {
    hide EvalExpr, GenExpr, SizeExpr, CoversExpr, JumpsFitExpr, HeightExpr, At;
  }

  // The value of the initializer is already in the slot of the new local.
  lemma {:induction false} SimDeclare(
      m: Machine, fuel: nat, env: Env, w: World, at: nat, loop: LoopInfo, x: string, e: Expr, bound: nat)
    returns (k: nat)
    requires ReadyStmt(m, env.names, at, loop, Declare(x, e), bound)
    ensures Delivers(m, State(at, env.values, w), k, at + SizeStmt(env.names, loop.locals, Declare(x, e)), loop, fuel,
                     EvalStmt(m.calls, fuel, env, w, Declare(x, e)), bound)
  {
    hide *;
    DeclareForm(m, fuel, env, w, at, loop, x, e, bound);
    var start := State(at, env.values, w);
    var at1 := at + SizeExpr(env.names, e);
    k := SimTop(m, env, w, at, e, bound);
    match EvalExpr(m.calls, env, w, e)
    case Value(env', w', v) => ReachedNormal(m, start, k, at1, loop, fuel, Bind(env', x, v), w', bound);
    case Abort(w') => FailedDelivers(m, start, k, at1, loop, fuel, w', bound);
  }

  lemma GiveForm(m: Machine, fuel: nat, env: Env, w: World, at: nat, loop: LoopInfo, e: Expr, bound: nat)
    requires ReadyStmt(m, env.names, at, loop, Give(e), bound)
    ensures Ready(m, env.names, at, e, 0, bound) && At(m.code, at + SizeExpr(env.names, e), [CODE_RETURN])
    ensures SizeStmt(env.names, loop.locals, Give(e)) == SizeExpr(env.names, e) + 1 && |env.names| < bound
    ensures EvalStmt(m.calls, fuel, env, w, Give(e))
         == (match EvalExpr(m.calls, env, w, e) case Value(_, w', v) => Gave(v, w') case Abort(w') => Failed(w'))
  {
    hide EvalExpr, GenExpr, SizeExpr, CoversExpr, JumpsFitExpr, HeightExpr, At;
    AtConcat(m.code, at, GenExpr(m.tables, env.names, e), [CODE_RETURN]);
  }

  lemma {:induction false} SimGive(
      m: Machine, fuel: nat, env: Env, w: World, at: nat, loop: LoopInfo, e: Expr, bound: nat) returns (k: nat)
    requires ReadyStmt(m, env.names, at, loop, Give(e), bound)
    ensures Delivers(m, State(at, env.values, w), k, at + SizeStmt(env.names, loop.locals, Give(e)), loop, fuel,
                     EvalStmt(m.calls, fuel, env, w, Give(e)), bound)
  {
    hide *;
    GiveForm(m, fuel, env, w, at, loop, e, bound);
    var start := State(at, env.values, w);
    var at1 := at + SizeExpr(env.names, e);
    k := SimTop(m, env, w, at, e, bound);
    match EvalExpr(m.calls, env, w, e)
    case Value(env', w', v) =>
      ReturnStep(m, at1, env'.values, v, w', bound);
      ReachEnds(m, start, k, State(at1, env'.values + [v], w'), 0, Finished(v, w'), bound);
      GaveDelivers(m, start, k, at1 + 1, loop, fuel, v, w', bound);
    case Abort(w') => FailedDelivers(m, start, k, at1 + 1, loop, fuel, w', bound);
  }

  lemma GaveDelivers(
      m: Machine, start: State, k: nat, at: nat, loop: LoopInfo, fuel: nat, v: Value, w: World, bound: nat)
    requires Ends(m, start, k, Finished(v, w), bound)
    ensures Delivers(m, start, k, at, loop, fuel, Gave(v, w), bound)
  {
  }

  // ----- Sequences and blocks -----

  lemma SeqReady(m: Machine, names: seq<string>, at: nat, loop: LoopInfo, first: Stmt, rest: Stmt, bound: nat)
    requires ReadyStmt(m, names, at, loop, Seq(first, rest), bound)
    ensures WellFormed(first) && ReadyStmt(m, names, at, loop, first, bound)
    ensures WellFormed(rest)
    ensures ReadyStmt(m, Declared(names, first), at + SizeStmt(names, loop.locals, first), loop, rest, bound)
    ensures SizeStmt(names, loop.locals, Seq(first, rest))
         == SizeStmt(names, loop.locals, first) + SizeStmt(Declared(names, first), loop.locals, rest)
  {
    hide GenStmt, SizeStmt, At, Declared;
    SizeForms(names, loop.locals, Lit(Null), first, rest);
    SeqAt(m, names, at, loop, first, rest);
  }

  lemma SeqAt(m: Machine, names: seq<string>, at: nat, loop: LoopInfo, first: Stmt, rest: Stmt)
    requires At(m.code, at, GenStmt(m.tables, names, at, loop, Seq(first, rest)))
    ensures var next := at + SizeStmt(names, loop.locals, first);
            && At(m.code, at, GenStmt(m.tables, names, at, loop, first))
            && At(m.code, next, GenStmt(m.tables, Declared(names, first), next, loop, rest))
  {
    hide *;
    var next := at + SizeStmt(names, loop.locals, first);
    SeqForm(m.tables, names, at, loop, first, rest);
    StmtSize(m.tables, names, at, loop, first);
    AtConcat(m.code, at, GenStmt(m.tables, names, at, loop, first),
             GenStmt(m.tables, Declared(names, first), next, loop, rest));
  }

  lemma SeqEval(calls: Calls, fuel: nat, env: Env, w: World, first: Stmt, rest: Stmt)
    requires WellFormed(first) && WellFormed(rest)
    ensures var o := EvalStmt(calls, fuel, env, w, first);
            EvalStmt(calls, fuel, env, w, Seq(first, rest)) == if o.Normal?
                then EvalStmt(calls, fuel, o.env, o.world, rest) else o
    ensures var o := EvalStmt(calls, fuel, env, w, first); o.Normal? ==> o.env.names == Declared(env.names, first)
  {
    hide Declared;
  }

  lemma {:induction false} SimSeq(
      m: Machine, fuel: nat, env: Env, w: World, at: nat, loop: LoopInfo, first: Stmt, rest: Stmt, bound: nat)
    returns (k: nat)
    requires WellFormed(Seq(first, rest)) && ReadyStmt(m, env.names, at, loop, Seq(first, rest), bound)
    ensures Delivers(m, State(at, env.values, w), k, at + SizeStmt(env.names, loop.locals, Seq(first, rest)), loop,
            fuel,
                     EvalStmt(m.calls, fuel, env, w, Seq(first, rest)), bound)
    decreases fuel, Seq(first, rest), 0
  {
    hide *;
    SeqReady(m, env.names, at, loop, first, rest, bound);
    SeqEval(m.calls, fuel, env, w, first, rest);
    var start := State(at, env.values, w);
    var at1 := at + SizeStmt(env.names, loop.locals, first);
    var end := at + SizeStmt(env.names, loop.locals, Seq(first, rest));
    k := SimStmt(m, fuel, env, w, at, loop, first, bound);
    var o := EvalStmt(m.calls, fuel, env, w, first);
    if o.Normal? {
      var i := SimStmt(m, fuel, o.env, o.world, at1, loop, rest, bound);
      NormalReached(m, start, k, at1, loop, fuel, o, bound);
      var o2 := EvalStmt(m.calls, fuel, o.env, o.world, rest);
      ThenDelivers(m, start, k, State(at1, o.env.values, o.world), i, end, loop, fuel, o2, bound);
      DeliversElsewhere(m, start, k + i, end, loop, fuel + k, o2, bound, end, loop, fuel);
      k := k + i;
    } else {
      DeliversElsewhere(m, start, k, at1, loop, fuel, o, bound, end, loop, fuel);
    }
  }

  lemma BlockReady(m: Machine, names: seq<string>, at: nat, loop: LoopInfo, body: Stmt, bound: nat)
    requires ReadyStmt(m, names, at, loop, Block(body), bound)
    ensures WellFormed(body) && ReadyStmt(m, names, at, loop, body, bound)
    ensures At(m.code, at + SizeStmt(names, loop.locals, body), Pops(|Declared(names, body)| - |names|))
    ensures SizeStmt(names, loop.locals, Block(body))
            == SizeStmt(names, loop.locals, body) + |Declared(names, body)| - |names|
    ensures |Declared(names, body)| <= bound
  {
    hide GenStmt, SizeStmt, At, Declared, Pops;
    SizeForms(names, loop.locals, Lit(Null), body, Skip);
    BlockAt(m, names, at, loop, body);
    DeclaredFits(names, body);
  }

  lemma BlockAt(m: Machine, names: seq<string>, at: nat, loop: LoopInfo, body: Stmt)
    requires At(m.code, at, GenStmt(m.tables, names, at, loop, Block(body)))
    ensures At(m.code, at, GenStmt(m.tables, names, at, loop, body))
    ensures At(m.code, at + SizeStmt(names, loop.locals, body), Pops(|Declared(names, body)| - |names|))
  {
    hide *;
    BlockForm(m.tables, names, at, loop, body);
    StmtSize(m.tables, names, at, loop, body);
    AtConcat(m.code, at, GenStmt(m.tables, names, at, loop, body), Pops(|Declared(names, body)| - |names|));
  }

  // The locals of a statement are within the height it reaches.
  lemma {:induction false} DeclaredFits(names: seq<string>, s: Stmt)
    ensures |Declared(names, s)| <= |names| + HeightStmt(names, s)
    decreases s
  {
    match s
    case Seq(first, rest) =>
      DeclaredFits(names, first);
      DeclaredFits(Declared(names, first), rest);
    case _ =>
  }

  lemma BlockEval(calls: Calls, fuel: nat, env: Env, w: World, body: Stmt)
    requires WellFormed(body)
    ensures var o := EvalStmt(calls, fuel, env, w, body);
            && EvalStmt(calls, fuel, env, w, Block(body))
               == (if o.Normal? then Normal(Cut(o.env, |env.names|), o.world) else o)
            && (o.Normal? ==> o.env.names == Declared(env.names, body)
                              && Cut(o.env, |env.names|).values == o.env.values[..|env.names|])
  {
    hide Declared;
  }

  lemma {:induction false} SimBlock(
      m: Machine, fuel: nat, env: Env, w: World, at: nat, loop: LoopInfo, body: Stmt, bound: nat) returns (k: nat)
    requires WellFormed(Block(body)) && ReadyStmt(m, env.names, at, loop, Block(body), bound)
    ensures Delivers(m, State(at, env.values, w), k, at + SizeStmt(env.names, loop.locals, Block(body)), loop, fuel,
                     EvalStmt(m.calls, fuel, env, w, Block(body)), bound)
    decreases fuel, Block(body), 0
  {
    hide *;
    BlockReady(m, env.names, at, loop, body, bound);
    BlockEval(m.calls, fuel, env, w, body);
    var start := State(at, env.values, w);
    var at1 := at + SizeStmt(env.names, loop.locals, body);
    var end := at + SizeStmt(env.names, loop.locals, Block(body));
    k := SimStmt(m, fuel, env, w, at, loop, body, bound);
    var o := EvalStmt(m.calls, fuel, env, w, body);
    if o.Normal? {
      NormalReached(m, start, k, at1, loop, fuel, o, bound);
      PopsStep(m, at1, o.env.values, |env.names|, o.world, bound);
      var cut := Cut(o.env, |env.names|);
      ReachTrans(m, start, k, State(at1, o.env.values, o.world), |o.env.values| - |env.names|,
          State(end, cut.values, o.world), bound);
      k := k + |o.env.values| - |env.names|;
      ReachedNormal(m, start, k, end, loop, fuel, cut, o.world, bound);
    } else {
      DeliversElsewhere(m, start, k, at1, loop, fuel, o, bound, end, loop, fuel);
    }
  }

  // ----- Breaks and continues -----

  lemma EscapeReady(m: Machine, names: seq<string>, at: nat, loop: LoopInfo, s: Stmt, bound: nat)
    returns (p: nat, n: nat)
    requires (s.BreakLoop? || s.ContinueLoop?) && ReadyStmt(m, names, at, loop, s, bound)
    ensures loop.exit.To? && loop.locals <= |names| <= bound && p == |names| - loop.locals
    ensures At(m.code, at, Pops(p)) && n < 0x1_0000
    ensures At(m.code, at + p, GenJump(if s.BreakLoop? then CODE_JUMP else CODE_LOOP, n))
    ensures s.BreakLoop? ==> at + p + 3 + n == loop.exit.offset
    ensures s.ContinueLoop? ==> loop.start + n == at + p + 3
  {
    hide At;
    p := |names| - loop.locals;
    var end := loop.exit.offset;
    if s.BreakLoop? {
      n := end - (at + p + 3);
      AtConcat(m.code, at, Pops(p), GenJump(CODE_JUMP, n));
    } else {
      n := at + p + 3 - loop.start;
      AtConcat(m.code, at, Pops(p), GenJump(CODE_LOOP, n));
    }
  }

  lemma {:induction false} SimEscape(
      m: Machine, fuel: nat, env: Env, w: World, at: nat, loop: LoopInfo, s: Stmt, bound: nat) returns (k: nat)
    requires (s.BreakLoop? || s.ContinueLoop?) && ReadyStmt(m, env.names, at, loop, s, bound)
    ensures Delivers(m, State(at, env.values, w), k, at + SizeStmt(env.names, loop.locals, s), loop, fuel,
                     EvalStmt(m.calls, fuel, env, w, s), bound)
  {
    hide Step, At, Reach, ReadyStmt, GenJump, Pops, SizeStmt;
    var p, n := EscapeReady(m, env.names, at, loop, s, bound);
    var start := State(at, env.values, w);
    var kept := env.values[..loop.locals];
    PopsStep(m, at, env.values, loop.locals, w, bound);
    JumpStep(m, at + p, if s.BreakLoop? then CODE_JUMP else CODE_LOOP, n, kept, w, bound);
    ReachTrans(m, start, p, State(at + p, kept, w), 1,
               State(if s.BreakLoop? then loop.exit.offset else loop.start, kept, w), bound);
    k := p + 1;
  }

  // ----- Conditionals -----

  // After [j] steps the condition [v] is on top of the locals.
  lemma {:induction false} ThenTest(
      m: Machine, start: State, j: nat, env: Env, w: World, at: nat, n: nat, v: Value, bound: nat)
    requires n < 0x1_0000 && At(m.code, at, GenJump(CODE_JUMP_IF, n)) && |env.values| < bound
    requires Reach(m, start, j, State(at, env.values + [v], w), bound)
    ensures Reach(m, start, j + 1, State(if v.Falsy() then at + 3 + n else at + 3, env.values, w), bound)
  {
    hide Step, At, Reach, GenJump;
    var taken, next := BranchStep(m, at, CODE_JUMP_IF, n, env.values, v, w, bound);
    ReachTrans(m, start, j, State(at, env.values + [v], w), 1, next, bound);
  }

  // After [j] steps the code of [s] starts.
  lemma {:induction false} RunNext(
      m: Machine, fuel: nat, start: State, j: nat, env: Env, w: World, at: nat, loop: LoopInfo, s: Stmt, bound: nat)
    returns (k: nat)
    requires Reach(m, start, j, State(at, env.values, w), bound)
    requires WellFormed(s) && ReadyStmt(m, env.names, at, loop, s, bound)
    ensures k >= j
    ensures Delivers(m, start, k, at + SizeStmt(env.names, loop.locals, s), loop, fuel,
            EvalStmt(m.calls, fuel, env, w, s), bound)
    decreases fuel, s, 3
  {
    hide *;
    var end := at + SizeStmt(env.names, loop.locals, s);
    var o := EvalStmt(m.calls, fuel, env, w, s);
    var i := SimStmt(m, fuel, env, w, at, loop, s, bound);
    ThenDelivers(m, start, j, State(at, env.values, w), i, end, loop, fuel, o, bound);
    k := j + i;
    DeliversElsewhere(m, start, k, end, loop, fuel + j, o, bound, end, loop, fuel);
  }

  // What a conditional asks of its parts.
  predicate Encodable(t: Tables, names: seq<string>, kept: nat, s: Stmt) {
    match t
    case Tables(_, _, _) =>
      LocalsFit(names, s) && WellFormed(s) && CoversStmt(t, names, s) && JumpsFitStmt(names, kept, s)
  }

  lemma IfThenEncodable(t: Tables, names: seq<string>, kept: nat, c: Expr, yes: Stmt)
    requires Encodable(t, names, kept, IfThen(c, yes))
    ensures Encodable(t, names, kept, yes) && CoversExpr(t, names, c) && JumpsFitExpr(names, c)
    ensures |names| <= 256 && SizeStmt(names, kept, yes) < 0x1_0000
    ensures Escapes(yes) ==> Escapes(IfThen(c, yes))
    ensures HeightStmt(names, IfThen(c, yes)) == Max(HeightExpr(c), HeightStmt(names, yes))
  {
    hide SizeStmt, CoversExpr, JumpsFitExpr, HeightExpr;
  }

  lemma IfElseEncodable(t: Tables, names: seq<string>, kept: nat, c: Expr, yes: Stmt, no: Stmt)
    requires Encodable(t, names, kept, IfElse(c, yes, no))
    ensures Encodable(t, names, kept, yes) && Encodable(t, names, kept, no)
    ensures CoversExpr(t, names, c) && JumpsFitExpr(names, c) && |names| <= 256
    ensures SizeStmt(names, kept, yes) + 3 < 0x1_0000 && SizeStmt(names, kept, no) < 0x1_0000
    ensures Escapes(yes) || Escapes(no) ==> Escapes(IfElse(c, yes, no))
    ensures HeightStmt(names, IfElse(c, yes, no))
            == Max(HeightExpr(c), Max(HeightStmt(names, yes), HeightStmt(names, no)))
  {
    hide SizeStmt, CoversExpr, JumpsFitExpr, HeightExpr;
  }

  lemma IfThenReady(m: Machine, names: seq<string>, at: nat, loop: LoopInfo, c: Expr, yes: Stmt, bound: nat)
    requires ReadyStmt(m, names, at, loop, IfThen(c, yes), bound)
    ensures Ready(m, names, at, c, 0, bound) && |names| < bound
    ensures SizeStmt(names, loop.locals, yes) < 0x1_0000
    ensures At(m.code, at + SizeExpr(names, c), GenJump(CODE_JUMP_IF, SizeStmt(names, loop.locals, yes)))
    ensures WellFormed(yes) && ReadyStmt(m, names, at + SizeExpr(names, c) + 3, loop, yes, bound)
    ensures SizeStmt(names, loop.locals, IfThen(c, yes)) == SizeExpr(names, c) + 3 + SizeStmt(names, loop.locals, yes)
  {
    hide GenStmt, SizeStmt, At, GenExpr, SizeExpr, CoversExpr, JumpsFitExpr, HeightExpr, GenJump;
    hide CoversStmt, JumpsFitStmt, LocalsFit, WellFormed, Escapes, HeightStmt;
    var at1 := at + SizeExpr(names, c) + 3;
    IfThenEncodable(m.tables, names, loop.locals, c, yes);
    SizeForms(names, loop.locals, c, yes, Skip);
    IfThenForm(m.tables, names, at, loop, c, yes);
    StmtSize(m.tables, names, at1, loop, yes);
    AtConcat3(m.code, at, GenExpr(m.tables, names, c), GenJump(CODE_JUMP_IF, SizeStmt(names, loop.locals, yes)),
              GenStmt(m.tables, names, at1, loop, yes));
  }

  lemma IfThenEval(calls: Calls, fuel: nat, env: Env, w: World, c: Expr, yes: Stmt)
    requires WellFormed(yes) && IsStatement(yes)
    ensures var r := EvalExpr(calls, env, w, c);
            EvalStmt(calls, fuel, env, w, IfThen(c, yes))
            == if r.Abort? then Failed(r.world)
               else if r.value.Falsy() then Normal(r.env, r.world)
               else EvalStmt(calls, fuel, r.env, r.world, yes)
  {
    hide EvalExpr;
  }

  lemma {:induction false} SimIfThen(
      m: Machine, fuel: nat, env: Env, w: World, at: nat, loop: LoopInfo, c: Expr, yes: Stmt, bound: nat)
    returns (k: nat)
    requires WellFormed(yes) && IsStatement(yes) && ReadyStmt(m, env.names, at, loop, IfThen(c, yes), bound)
    ensures Delivers(m, State(at, env.values, w), k, at + SizeStmt(env.names, loop.locals, IfThen(c, yes)), loop, fuel,
                     EvalStmt(m.calls, fuel, env, w, IfThen(c, yes)), bound)
    decreases fuel, IfThen(c, yes), 0
  {
    hide *;
    IfThenReady(m, env.names, at, loop, c, yes, bound);
    IfThenEval(m.calls, fuel, env, w, c, yes);
    var start := State(at, env.values, w);
    var at1 := at + SizeExpr(env.names, c);
    var n := SizeStmt(env.names, loop.locals, yes);
    k := SimTop(m, env, w, at, c, bound);
    match EvalExpr(m.calls, env, w, c)
    case Value(env', w', v) =>
      ThenTest(m, start, k, env', w', at1, n, v, bound);
      k := k + 1;
      if v.Falsy() {
        ReachedNormal(m, start, k, at1 + 3 + n, loop, fuel, env', w', bound);
      } else {
        k := RunNext(m, fuel, start, k, env', w', at1 + 3, loop, yes, bound);
      }
    case Abort(w') => FailedDelivers(m, start, k, at1 + 3 + n, loop, fuel, w', bound);
  }

  lemma IfElseReady(m: Machine, names: seq<string>, at: nat, loop: LoopInfo, c: Expr, yes: Stmt, no: Stmt, bound: nat)
    requires ReadyStmt(m, names, at, loop, IfElse(c, yes, no), bound)
    ensures Ready(m, names, at, c, 0, bound) && |names| < bound
    ensures var sizeY, sizeN := SizeStmt(names, loop.locals, yes), SizeStmt(names, loop.locals, no);
            var atY := at + SizeExpr(names, c) + 3;
            var atN := atY + sizeY + 3;
            && sizeY + 3 < 0x1_0000 && sizeN < 0x1_0000
            && At(m.code, atY - 3, GenJump(CODE_JUMP_IF, sizeY + 3)) && At(m.code, atN - 3, GenJump(CODE_JUMP, sizeN))
            && ReadyStmt(m, names, atY, loop, yes, bound) && ReadyStmt(m, names, atN, loop, no, bound)
            && at + SizeStmt(names, loop.locals, IfElse(c, yes, no)) == atN + sizeN
  {
    hide GenStmt, SizeStmt, At, GenExpr, SizeExpr, CoversExpr, JumpsFitExpr, HeightExpr, GenJump;
    hide CoversStmt, JumpsFitStmt, LocalsFit, WellFormed, Escapes, HeightStmt, TablesFit;
    IfElseEncodable(m.tables, names, loop.locals, c, yes, no);
    SizeForms(names, loop.locals, c, yes, no);
    IfElseCode(m.code, m.tables, names, at, loop, c, yes, no);
  }

  lemma IfElseCode(
      code: seq<byte>, t: Tables, names: seq<string>, at: nat, loop: LoopInfo, c: Expr, yes: Stmt, no: Stmt)
    requires At(code, at, GenStmt(t, names, at, loop, IfElse(c, yes, no)))
    ensures var sizeY, sizeN := SizeStmt(names, loop.locals, yes), SizeStmt(names, loop.locals, no);
            var atY := at + SizeExpr(names, c) + 3;
            var atN := atY + sizeY + 3;
            && At(code, at, GenExpr(t, names, c))
            && At(code, atY - 3, GenJump(CODE_JUMP_IF, sizeY + 3)) && At(code, atN - 3, GenJump(CODE_JUMP, sizeN))
            && At(code, atY, GenStmt(t, names, atY, loop, yes)) && At(code, atN, GenStmt(t, names, atN, loop, no))
  {
    hide *;
    var sizeY, sizeN := SizeStmt(names, loop.locals, yes), SizeStmt(names, loop.locals, no);
    var atY := at + SizeExpr(names, c) + 3;
    var atN := atY + sizeY + 3;
    IfElseForm(t, names, at, loop, c, yes, no);
    StmtSize(t, names, atY, loop, yes);
    StmtSize(t, names, atN, loop, no);
    var y, n := GenStmt(t, names, atY, loop, yes), GenStmt(t, names, atN, loop, no);
    AtConcat(code, at, GenExpr(t, names, c), GenBranches(y, n));
    BranchesCode(code, atY - 3, y, n);
  }

  lemma BranchesCode(code: seq<byte>, at: nat, yes: seq<byte>, no: seq<byte>)
    requires At(code, at, GenBranches(yes, no))
    ensures At(code, at, GenJump(CODE_JUMP_IF, |yes| + 3)) && At(code, at + 3, yes)
    ensures At(code, at + 3 + |yes|, GenJump(CODE_JUMP, |no|)) && At(code, at + 3 + |yes| + 3, no)
  {
    hide At, GenJump;
    AtConcat3(code, at, GenJump(CODE_JUMP_IF, |yes| + 3) + yes, GenJump(CODE_JUMP, |no|), no);
    AtConcat(code, at, GenJump(CODE_JUMP_IF, |yes| + 3), yes);
  }

  lemma IfElseEval(calls: Calls, fuel: nat, env: Env, w: World, c: Expr, yes: Stmt, no: Stmt)
    requires WellFormed(yes) && IsStatement(yes) && WellFormed(no) && IsStatement(no)
    ensures var r := EvalExpr(calls, env, w, c);
            EvalStmt(calls, fuel, env, w, IfElse(c, yes, no))
            == if r.Abort? then Failed(r.world)
               else if r.value.Falsy() then EvalStmt(calls, fuel, r.env, r.world, no)
               else EvalStmt(calls, fuel, r.env, r.world, yes)
  {
    hide EvalExpr;
  }

  // A statement that is not a definition leaves the names in scope as they are.
  lemma StatementKeepsNames(calls: Calls, fuel: nat, env: Env, w: World, s: Stmt)
    requires WellFormed(s) && IsStatement(s)
    ensures var o := EvalStmt(calls, fuel, env, w, s); o.Normal? ==> o.env.names == env.names
  {
    hide EvalStmt;
  }

  lemma {:induction false} SimIfElse(
      m: Machine, fuel: nat, env: Env, w: World, at: nat, loop: LoopInfo, c: Expr, yes: Stmt, no: Stmt, bound: nat)
    returns (k: nat)
    requires WellFormed(yes) && IsStatement(yes) && WellFormed(no) && IsStatement(no)
    requires ReadyStmt(m, env.names, at, loop, IfElse(c, yes, no), bound)
    ensures Delivers(m, State(at, env.values, w), k, at + SizeStmt(env.names, loop.locals, IfElse(c, yes, no)), loop,
            fuel,
                     EvalStmt(m.calls, fuel, env, w, IfElse(c, yes, no)), bound)
    decreases fuel, IfElse(c, yes, no), 0
  {
    hide *;
    IfElseReady(m, env.names, at, loop, c, yes, no, bound);
    IfElseEval(m.calls, fuel, env, w, c, yes, no);
    var start := State(at, env.values, w);
    var at1 := at + SizeExpr(env.names, c);
    var sizeY, sizeN := SizeStmt(env.names, loop.locals, yes), SizeStmt(env.names, loop.locals, no);
    k := SimTop(m, env, w, at, c, bound);
    match EvalExpr(m.calls, env, w, c)
    case Value(env', w', v) =>
      ThenTest(m, start, k, env', w', at1, sizeY + 3, v, bound);
      k := k + 1;
      if v.Falsy() {
        k := RunNext(m, fuel, start, k, env', w', at1 + 3 + sizeY + 3, loop, no, bound);
      } else {
        StatementKeepsNames(m.calls, fuel, env', w', yes);
        k := RunNext(m, fuel, start, k, env', w', at1 + 3, loop, yes, bound);
        k := SkipOver(m, start, k, at1 + 3 + sizeY, loop, fuel, EvalStmt(m.calls, fuel, env', w', yes), sizeN, bound);
      }
    case Abort(w') =>
      FailedDelivers(m, start, k, at + SizeStmt(env.names, loop.locals, IfElse(c, yes, no)), loop, fuel, w', bound);
  }

  // A normal outcome jumps forward over [n] bytes; any other is already elsewhere.
  lemma {:induction false} SkipOver(
      m: Machine, start: State, j: nat, at: nat, loop: LoopInfo, fuel: nat, o: Outcome, n: nat, bound: nat)
    returns (k: nat)
    requires n < 0x1_0000 && At(m.code, at, GenJump(CODE_JUMP, n))
    requires Delivers(m, start, j, at, loop, fuel, o, bound)
    requires o.Normal? ==> |o.env.values| <= bound
    ensures Delivers(m, start, k, at + 3 + n, loop, fuel, o, bound)
  {
    hide Step, At, Reach, GenJump, Ends, Runs;
    k := j;
    if o.Normal? {
      JumpStep(m, at, CODE_JUMP, n, o.env.values, o.world, bound);
      ReachTrans(m, start, j, State(at, o.env.values, o.world), 1, State(at + 3 + n, o.env.values, o.world), bound);
      k := j + 1;
    }
  }

  // ----- While loops -----

  ghost predicate ReadyLoop(m: Machine, names: seq<string>, at: nat, c: Expr, body: Stmt, bound: nat) {
    match m
    case Machine(code, tables, _) =>
      && TablesFit(tables) && LocalsFit(names, body) && WellFormed(body) && IsStatement(body)
      && At(code, at, GenLoop(tables, names, at, c, body))
      && CoversExpr(tables, names, c) && CoversStmt(tables, names, body)
      && JumpsFitExpr(names, c) && JumpsFitStmt(names, |names|, body) && SizeLoop(names, c, body) < 0x1_0000
      && |names| + Max(HeightExpr(c), HeightStmt(names, body)) <= bound
  }

  lemma LoopReady(m: Machine, names: seq<string>, at: nat, c: Expr, body: Stmt, bound: nat)
    requires ReadyLoop(m, names, at, c, body, bound)
    ensures WellFormed(body) && IsStatement(body)
    ensures Ready(m, names, at, c, 0, bound) && |names| < bound
    ensures var size := SizeLoop(names, c, body);
            var loop := LoopInfo(at, |names|, To(at + size));
            var sizeB := SizeStmt(names, |names|, body);
            var atB := at + SizeExpr(names, c) + 3;
            && size < 0x1_0000 && atB + sizeB + 3 == at + size
            && At(m.code, atB - 3, GenJump(CODE_JUMP_IF, sizeB + 3))
               && At(m.code, atB + sizeB, GenJump(CODE_LOOP, size))
            && ReadyStmt(m, names, atB, loop, body, bound)
  {
    hide GenStmt, SizeStmt, At, GenExpr, SizeExpr, CoversExpr, CoversStmt, JumpsFitExpr, JumpsFitStmt, HeightExpr,
         HeightStmt, GenJump, GenLoop, SizeLoop, LocalsFit, WellFormed, Escapes;
    LocalsFitHere(names, body);
    LoopSizes(names, 0, c, body, []);
    LoopCode(m.code, m.tables, names, at, c, body);
  }

  lemma LoopCode(code: seq<byte>, t: Tables, names: seq<string>, at: nat, c: Expr, body: Stmt)
    requires At(code, at, GenLoop(t, names, at, c, body))
    ensures var size := SizeLoop(names, c, body);
            var loop := LoopInfo(at, |names|, To(at + size));
            var sizeB := SizeStmt(names, |names|, body);
            var atB := at + SizeExpr(names, c) + 3;
            && At(code, at, GenExpr(t, names, c)) && At(code, atB - 3, GenJump(CODE_JUMP_IF, sizeB + 3))
            && At(code, atB, GenStmt(t, names, atB, loop, body)) && At(code, atB + sizeB, GenJump(CODE_LOOP, size))
  {
    hide *;
    var size := SizeLoop(names, c, body);
    var loop := LoopInfo(at, |names|, To(at + size));
    var atB := at + SizeExpr(names, c) + 3;
    LoopForm(t, names, at, c, body);
    StmtSize(t, names, atB, loop, body);
    var b := GenStmt(t, names, atB, loop, body);
    var cond, test := GenExpr(t, names, c), GenJump(CODE_JUMP_IF, |b| + 3);
    AtConcat3(code, at, cond + test, b, GenJump(CODE_LOOP, size));
    AtConcat(code, at, cond, test);
  }

  lemma LoopEval(calls: Calls, fuel: nat, env: Env, w: World, c: Expr, body: Stmt)
    requires WellFormed(body) && IsStatement(body)
    ensures fuel == 0 ==> EvalLoop(calls, fuel, env, w, c, body) == OutOfFuel
    ensures var r := EvalExpr(calls, env, w, c);
            fuel > 0 ==>
              && (r.Abort? ==> EvalLoop(calls, fuel, env, w, c, body) == Failed(r.world))
              && (r.Value? && r.value.Falsy() ==> EvalLoop(calls, fuel, env, w, c, body) == Normal(r.env, r.world))
              && (r.Value? && !r.value.Falsy() ==>
                    var o := EvalStmt(calls, fuel, r.env, r.world, body);
                    EvalLoop(calls, fuel, env, w, c, body) == AfterBody(calls, fuel, |env.names|, c, body, o))
  {
    hide EvalExpr, EvalStmt, Cut;
  }

  // What a loop does once its body has had outcome [o]; [n] locals are around it.
  function AfterBody(calls: Calls, fuel: nat, n: nat, c: Expr, body: Stmt, o: Outcome): Outcome
    requires fuel > 0 && WellFormed(body) && IsStatement(body)
  {
    match o
    case Normal(env, w) => EvalLoop(calls, fuel - 1, env, w, c, body)
    case Continued(env, w) => EvalLoop(calls, fuel - 1, Cut(env, n), w, c, body)
    case Broke(env, w) => Normal(Cut(env, n), w)
    case _ => o
  }

  lemma {:induction false} SimLoop(
      m: Machine, fuel: nat, env: Env, w: World, at: nat, outer: LoopInfo, c: Expr, body: Stmt, bound: nat)
    returns (k: nat)
    requires WellFormed(body) && IsStatement(body) && ReadyLoop(m, env.names, at, c, body, bound)
    ensures Delivers(m, State(at, env.values, w), k, at + SizeLoop(env.names, c, body), outer, fuel,
                     EvalLoop(m.calls, fuel, env, w, c, body), bound)
    decreases fuel, body, 5
  {
    hide *;
    LoopReady(m, env.names, at, c, body, bound);
    LoopEval(m.calls, fuel, env, w, c, body);
    var start := State(at, env.values, w);
    var size, sizeB := SizeLoop(env.names, c, body), SizeStmt(env.names, |env.names|, body);
    var atB := at + SizeExpr(env.names, c) + 3;
    if fuel == 0 {
      k := 0;
      NoStep(m, at, env.values, w, bound);
      OutOfFuelDelivers(m, start, 0, at + size, outer, 0, bound);
      assert EvalLoop(m.calls, fuel, env, w, c, body) == OutOfFuel;
    } else {
      k := SimTop(m, env, w, at, c, bound);
      match EvalExpr(m.calls, env, w, c)
      case Value(env', w', v) =>
        ThenTest(m, start, k, env', w', atB - 3, sizeB + 3, v, bound);
        if v.Falsy() {
          k := k + 1;
          ReachedNormal(m, start, k, at + size, outer, fuel, env', w', bound);
          assert EvalLoop(m.calls, fuel, env, w, c, body) == Normal(env', w');
        } else {
          assert env'.names == env.names;
          k := SimIteration(m, fuel, start, k + 1, env', w', at, outer, c, body, bound);
          var o := AfterBody(m.calls, fuel, |env.names|, c, body, EvalStmt(m.calls, fuel, env', w', body));
          assert EvalLoop(m.calls, fuel, env, w, c, body) == o;
          assert Delivers(m, start, k, at + size, outer, fuel, o, bound);
        }
      case Abort(w') =>
        FailedDelivers(m, start, k, at + size, outer, fuel, w', bound);
        assert EvalLoop(m.calls, fuel, env, w, c, body) == Failed(w');
    }
  }

  lemma OutOfFuelDelivers(m: Machine, start: State, k: nat, at: nat, loop: LoopInfo, fuel: nat, bound: nat)
    requires Runs(m, start, k, bound) && k >= fuel
    ensures Delivers(m, start, k, at, loop, fuel, OutOfFuel, bound)
  {
  }

  // After [j] steps, at least one, the body of the loop starts.
  lemma {:induction false} SimIteration(
      m: Machine, fuel: nat, start: State, j: nat, env: Env, w: World, at: nat, outer: LoopInfo, c: Expr, body: Stmt,
      bound: nat) returns (k: nat)
    requires j > 0 && fuel > 0 && WellFormed(body) && IsStatement(body) && ReadyLoop(m, env.names, at, c, body, bound)
    requires Reach(m, start, j, State(at + SizeExpr(env.names, c) + 3, env.values, w), bound)
    ensures Delivers(m, start, k, at + SizeLoop(env.names, c, body), outer, fuel,
                     AfterBody(m.calls, fuel, |env.names|, c, body, EvalStmt(m.calls, fuel, env, w, body)), bound)
    decreases fuel, body, 4
  {
    hide *;
    LoopReady(m, env.names, at, c, body, bound);
    var size := SizeLoop(env.names, c, body);
    var loop := LoopInfo(at, |env.names|, To(at + size));
    var atB := at + SizeExpr(env.names, c) + 3;
    var o := EvalStmt(m.calls, fuel, env, w, body);
    k := RunNext(m, fuel, start, j, env, w, atB, loop, body, bound);
    var next,
        next' := BackToStart(m, fuel, start, k, env, w, atB + SizeStmt(env.names, |env.names|, body), loop, body, o,
            size, bound);
    AfterBodyIs(m.calls, fuel, |env.names|, c, body, o);
    if o.Normal? || o.Continued? {
      var i := SimLoop(m, fuel - 1, next, o.world, at, outer, c, body, bound);
      var o2 := EvalLoop(m.calls, fuel - 1, next, o.world, c, body);
      ThenDelivers(m, start, next', State(at, next.values, o.world), i, at + size, outer, fuel - 1, o2, bound);
      k := next' + i;
      DeliversElsewhere(m, start, k, at + size, outer, fuel - 1 + next', o2, bound, at + size, outer, fuel);
    } else if o.Broke? {
      ReachedNormal(m, start, k, at + size, outer, fuel, next, o.world, bound);
    } else {
      DeliversElsewhere(m, start, k, atB + SizeStmt(env.names, |env.names|, body), loop, fuel, o, bound, at + size,
          outer, fuel);
    }
  }

  lemma AfterBodyIs(calls: Calls, fuel: nat, n: nat, c: Expr, body: Stmt, o: Outcome)
    requires fuel > 0 && WellFormed(body) && IsStatement(body)
    ensures AfterBody(calls, fuel, n, c, body, o)
         == (match o
             case Normal(env, w) => EvalLoop(calls, fuel - 1, env, w, c, body)
             case Continued(env, w) => EvalLoop(calls, fuel - 1, Cut(env, n), w, c, body)
             case Broke(env, w) => Normal(Cut(env, n), w)
             case _ => o)
  {
    hide EvalLoop;
  }

  // The body of a loop has had outcome [o]. If the loop goes on, control gets back
  // to its start after [k'] steps, more than [j]; if it was left by a break,
  // control is at its end already. Either way only the locals around it remain.
  lemma {:induction false} BackToStart(
      m: Machine, fuel: nat, start: State, j: nat, env: Env, w: World, at: nat, loop: LoopInfo, body: Stmt, o: Outcome,
      n: nat, bound: nat) returns (env': Env, k': nat)
    requires WellFormed(body) && IsStatement(body) && o == EvalStmt(m.calls, fuel, env, w, body)
    requires loop.exit.To? && loop.locals == |env.names| <= bound && n < 0x1_0000 && loop.start + n == at + 3
    requires At(m.code, at, GenJump(CODE_LOOP, n))
    requires Delivers(m, start, j, at, loop, fuel, o, bound)
    ensures k' >= j
    ensures o.Normal? || o.Continued? || o.Broke? ==> env'.names == env.names
    ensures o.Normal? ==> env' == o.env && Reach(m, start, k', State(loop.start, env'.values, o.world), bound)
    ensures o.Continued? ==>
              env' == Cut(o.env, |env.names|) && Reach(m, start, k', State(loop.start, env'.values, o.world), bound)
    ensures o.Broke? ==>
              env' == Cut(o.env, |env.names|)
                  && Reach(m, start, j, State(loop.exit.offset, env'.values, o.world), bound)
  {
    hide Step, At, Reach, GenJump, Ends, Runs, EvalStmt;
    env', k' := env, j;
    if o.Normal? {
      env', k' := o.env, j + 1;
      JumpStep(m, at, CODE_LOOP, n, o.env.values, o.world, bound);
      ReachTrans(m, start, j, State(at, o.env.values, o.world), 1, State(loop.start, o.env.values, o.world), bound);
    } else if o.Continued? || o.Broke? {
      env' := Cut(o.env, |env.names|);
      assert o.env.names[..|env.names|] == env.names;
    }
  }

  lemma {:induction false} SimWhile(
      m: Machine, fuel: nat, env: Env, w: World, at: nat, loop: LoopInfo, c: Expr, body: Stmt, bound: nat)
    returns (k: nat)
    requires WellFormed(body) && IsStatement(body) && ReadyStmt(m, env.names, at, loop, Loop(c, body), bound)
    ensures Delivers(m, State(at, env.values, w), k, at + SizeStmt(env.names, loop.locals, Loop(c, body)), loop, fuel,
                     EvalStmt(m.calls, fuel, env, w, Loop(c, body)), bound)
    decreases fuel, Loop(c, body), 0
  {
    hide *;
    WhileForm(m, fuel, env, w, at, loop, c, body, bound);
    k := SimLoop(m, fuel, env, w, at, loop, c, body, bound);
  }

  lemma WhileForm(m: Machine, fuel: nat, env: Env, w: World, at: nat, loop: LoopInfo, c: Expr, body: Stmt, bound: nat)
    requires WellFormed(body) && IsStatement(body) && ReadyStmt(m, env.names, at, loop, Loop(c, body), bound)
    ensures body < Loop(c, body) && ReadyLoop(m, env.names, at, c, body, bound)
    ensures SizeStmt(env.names, loop.locals, Loop(c, body)) == SizeLoop(env.names, c, body)
    ensures EvalStmt(m.calls, fuel, env, w, Loop(c, body)) == EvalLoop(m.calls, fuel, env, w, c, body)
  {
    hide GenLoop, SizeLoop, EvalLoop, At;
  }

  // ----- For loops -----

  // [names] are the locals around the statement; [env] also has the hidden ones.
  predicate Iterating(names: seq<string>, env: Env) {
    env.names == names + [SEQ_LOCAL, ITER_LOCAL]
  }

  ghost predicate ReadyFor(m: Machine, names: seq<string>, at: nat, x: string, body: Stmt, bound: nat) {
    match m
    case Machine(code, tables, _) =>
      && TablesFit(tables) && ITERATE in tables.methods && ITERATOR_VALUE in tables.methods
      && Encodable(tables, ForNames(names, x), |names| + 2, body) && IsStatement(body)
      && At(code, at, GenForLoop(tables, names, at, x, body))
      && SizeForLoop(names, x, body) < 0x1_0000
      && |names| + Max(4, 3 + HeightStmt(ForNames(names, x), body)) <= bound
  }

  // Where the parts of the loop of a for statement are.
  function ItemOffset(names: seq<string>): nat {
    |GenAdvance(Tables([], [], []), |names|)| + 3
  }

  function ForBodyLoop(names: seq<string>, at: nat, x: string, body: Stmt): LoopInfo {
    LoopInfo(at, |names| + 2, To(at + SizeForLoop(names, x, body)))
  }

  lemma ForReady(m: Machine, names: seq<string>, at: nat, x: string, body: Stmt, bound: nat)
    requires ReadyFor(m, names, at, x, body, bound)
    ensures WellFormed(body) && IsStatement(body) && |names| + 2 <= 255 && |names| + 4 <= bound
    ensures TablesFit(m.tables) && ITERATE in m.tables.methods && ITERATOR_VALUE in m.tables.methods
    ensures var size := SizeForLoop(names, x, body);
            var sizeB := SizeStmt(ForNames(names, x), |names| + 2, body);
            var atB := at + BodyOffset(names);
            && size < 0x1_0000 && atB + sizeB + 1 + 3 == at + size
            && ReadyStmt(m, ForNames(names, x), atB, ForBodyLoop(names, at, x, body), body, bound)
  {
    hide GenStmt, SizeStmt, At, CoversStmt, JumpsFitStmt, HeightStmt, GenForLoop, SizeForLoop, WellFormed, Escapes,
         BodyOffset, GenJump;
    LoopSizes(names, 0, Lit(Null), body, x);
    ForCode(m.code, m.tables, names, at, x, body);
    LocalsFitHere(ForNames(names, x), body);
  }

  lemma LocalsFitHere(names: seq<string>, s: Stmt)
    requires LocalsFit(names, s)
    ensures |names| <= 256
  {
  }

  lemma ForCode(code: seq<byte>, t: Tables, names: seq<string>, at: nat, x: string, body: Stmt)
    requires At(code, at, GenForLoop(t, names, at, x, body))
    ensures var size := SizeForLoop(names, x, body);
            var sizeB := SizeStmt(ForNames(names, x), |names| + 2, body);
            var atB := at + BodyOffset(names);
            var atI := at + ItemOffset(names);
            && At(code, at, GenAdvance(t, |names|)) && atI - 3 == at + |GenAdvance(t, |names|)|
            && At(code, atI - 3, GenJump(CODE_JUMP_IF, atB - atI + sizeB + 1 + 3))
            && At(code, atI, GenItem(t, |names|)) && atB == atI + |GenItem(t, |names|)|
            && At(code, atB, GenStmt(t, ForNames(names, x), atB, ForBodyLoop(names, at, x, body), body))
            && At(code, atB + sizeB, [CODE_POP])
            && At(code, atB + sizeB + 1, GenJump(CODE_LOOP, size))
  {
    hide *;
    ForOffsets(t, names);
    ForLoopForm(t, names, at, x, body);
    LoopInfoIs(names, at, x, body);
    var atB := at + BodyOffset(names);
    StmtSize(t, ForNames(names, x), atB, ForBodyLoop(names, at, x, body), body);
    var b := GenStmt(t, ForNames(names, x), atB, ForBodyLoop(names, at, x, body), body);
    var advance, item := GenAdvance(t, |names|), GenItem(t, |names|);
    var test := GenJump(CODE_JUMP_IF, |item| + |b| + 1 + 3);
    AtConcat3(code, at, advance + test, item + b + [CODE_POP], GenJump(CODE_LOOP, SizeForLoop(names, x, body)));
    AtConcat(code, at, advance, test);
    AtConcat3(code, at + ItemOffset(names), item, b, [CODE_POP]);
  }

  lemma ForOffsets(t: Tables, names: seq<string>)
    ensures ItemOffset(names) == |GenAdvance(t, |names|)| + 3
    ensures BodyOffset(names) == ItemOffset(names) + |GenItem(t, |names|)|
  {
  }

  lemma LoopInfoIs(names: seq<string>, at: nat, x: string, body: Stmt)
    ensures ForBodyLoop(names, at, x, body) == LoopInfo(at, |names| + 2, To(at + SizeForLoop(names, x, body)))
  {
  }

  // Loads the sequence and the iterator and calls a method on them.
  lemma {:induction false} SimHiddenCall(
      m: Machine, at: nat, n: nat, name: string, st: seq<Value>, w: World, bound: nat)
    requires TablesFit(m.tables) && name in m.tables.methods && n + 2 == |st| && n + 1 < 256 && |st| + 2 <= bound
    requires At(m.code, at, GenLoadLocal(n) + GenLoadLocal(n + 1) + GenCall(m.tables, 1, name))
    ensures var r := m.calls(w, name, [st[n], st[n + 1]]);
            var at' := at + |GenLoadLocal(n)| + |GenLoadLocal(n + 1)| + 3;
            && (r.Returned? ==> Reach(m, State(at, st, w), 3, State(at', st + [r.value], r.world), bound))
            && (r.Raised? ==> Ends(m, State(at, st, w), 2, Crashed(r.world), bound))
  {
    hide Step, At, Reach, Ends, GenLoadLocal, GenCall;
    var load1, load2 := GenLoadLocal(n), GenLoadLocal(n + 1);
    var start := State(at, st, w);
    var args := [st[n], st[n + 1]];
    var at2 := at + |load1| + |load2|;
    AtConcat3(m.code, at, load1, load2, GenCall(m.tables, 1, name));
    LoadLocalStep(m, at, n, st, w, bound);
    LoadLocalStep(m, at + |load1|, n + 1, st + [st[n]], w, bound);
    assert st + [st[n]] + [(st + [st[n]])[n + 1]] == st + args;
    ReachTrans(m, start, 1, State(at + |load1|, st + [st[n]], w), 1, State(at2, st + args, w), bound);
    CallStep(m, at2, name, st, args, w, bound);
    var r := m.calls(w, name, args);
    if r.Returned? {
      ReachTrans(m, start, 2, State(at2, st + args, w), 1, State(at2 + 3, st + [r.value], r.world), bound);
    } else {
      ReachEnds(m, start, 2, State(at2, st + args, w), 0, Crashed(r.world), bound);
    }
  }

  // What a for statement does once its body has had outcome [o].
  function AfterItem(calls: Calls, fuel: nat, n: nat, x: string, body: Stmt, o: Outcome): Outcome
    requires fuel > 0 && WellFormed(body) && IsStatement(body)
    requires n >= 2 && (o.Normal? || o.Continued? ==> n <= |o.env.names|)
  {
    match o
    case Normal(env, w) => EvalFor(calls, fuel - 1, Cut(env, n), w, x, body)
    case Continued(env, w) => EvalFor(calls, fuel - 1, Cut(env, n), w, x, body)
    case Broke(env, w) => Normal(Cut(env, n), w)
    case _ => o
  }

  lemma BodyInScope(calls: Calls, fuel: nat, env: Env, w: World, s: Stmt)
    requires WellFormed(s)
    ensures var o := EvalStmt(calls, fuel, env, w, s);
            o.Normal? || o.Continued? || o.Broke? ==> env.names <= o.env.names
  {
    hide EvalStmt;
  }

  lemma ForEval(calls: Calls, fuel: nat, env: Env, w: World, x: string, body: Stmt)
    requires WellFormed(body) && IsStatement(body) && |env.names| >= 2
    ensures fuel == 0 ==> EvalFor(calls, fuel, env, w, x, body) == OutOfFuel
    ensures var n := |env.names|;
            var r := calls(w, ITERATE, [env.values[n - 2], env.values[n - 1]]);
            fuel > 0 ==>
              && (r.Raised? ==> EvalFor(calls, fuel, env, w, x, body) == Failed(r.world))
              && (r.Returned? ==>
                    EvalFor(calls, fuel, env, w, x, body)
                    == ForTested(calls, fuel, Locals(env.names, env.values[n - 1 := r.value]), r.world, x, body))
  {
    hide EvalStmt;
  }

  // A for statement whose iterator has just been advanced.
  function ForTested(calls: Calls, fuel: nat, env: Env, w: World, x: string, body: Stmt): Outcome
    requires fuel > 0 && WellFormed(body) && IsStatement(body) && |env.names| >= 2
  {
    var n := |env.names|;
    if env.values[n - 1].Falsy() then Normal(env, w)
    else
      match calls(w, ITERATOR_VALUE, [env.values[n - 2], env.values[n - 1]])
      case Raised(w') => Failed(w')
      case Returned(item, w') =>
        BodyInScope(calls, fuel, Bind(env, x, item), w', body);
        AfterItem(calls, fuel, n, x, body, EvalStmt(calls, fuel, Bind(env, x, item), w', body))
  }

  lemma {:induction false} SimFor(
      m: Machine, fuel: nat, names: seq<string>, env: Env, w: World, at: nat, outer: LoopInfo, x: string, body: Stmt,
      bound: nat) returns (k: nat)
    requires WellFormed(body) && IsStatement(body) && Iterating(names, env) && ReadyFor(m, names, at, x, body, bound)
    ensures Delivers(m, State(at, env.values, w), k, at + SizeForLoop(names, x, body), outer, fuel,
                     EvalFor(m.calls, fuel, env, w, x, body), bound)
    decreases fuel, body, 6
  {
    hide *;
    IteratingLength(names, env);
    ForReady(m, names, at, x, body, bound);
    ForEval(m.calls, fuel, env, w, x, body);
    var start := State(at, env.values, w);
    var end := at + SizeForLoop(names, x, body);
    if fuel == 0 {
      k := 0;
      NoStep(m, at, env.values, w, bound);
      OutOfFuelDelivers(m, start, 0, end, outer, 0, bound);
    } else {
      var n := |names|;
      var r := m.calls(w, ITERATE, [env.values[n], env.values[n + 1]]);
      SimAdvance(m, names, env, w, at, x, body, bound);
      if r.Returned? {
        Advanced(names, env, r.value);
        k := SimTested(m, fuel, names, start, 4, Locals(env.names, env.values[n + 1 := r.value]), r.value, r.world, at,
            outer, x, body, bound);
      } else {
        FailedDelivers(m, start, 2, end, outer, fuel, r.world, bound);
        k := 2;
      }
    }
  }

  // Storing the iterator keeps the shape of the env.
  lemma Advanced(names: seq<string>, env: Env, v: Value)
    requires Iterating(names, env) && |env.names| == |names| + 2
    ensures var env' := Locals(env.names, env.values[|names| + 1 := v]);
            Iterating(names, env') && |env'.names| == |names| + 2 && env'.values[|names| + 1] == v
  {
  }

  lemma IteratingLength(names: seq<string>, env: Env)
    requires Iterating(names, env)
    ensures |env.names| == |names| + 2
  {
  }

  lemma {:induction false} SimAdvance(
      m: Machine, names: seq<string>, env: Env, w: World, at: nat, x: string, body: Stmt, bound: nat)
    requires |env.names| == |names| + 2 && ReadyFor(m, names, at, x, body, bound)
    ensures var n := |names|;
            var r := m.calls(w, ITERATE, [env.values[n], env.values[n + 1]]);
            && (r.Returned? ==> Reach(m, State(at, env.values, w), 4,
                                      State(at + ItemOffset(names) - 3, env.values[n + 1 := r.value] + [r.value],
                                          r.world), bound))
            && (r.Raised? ==> Ends(m, State(at, env.values, w), 2, Crashed(r.world), bound))
  {
    var n, t := |names|, m.tables;
    hide *;
    var calls := GenLoadLocal(n) + GenLoadLocal(n + 1) + GenCall(t, 1, ITERATE);
    AdvanceCode(m, names, at, x, body, bound);
    SimHiddenCall(m, at, n, ITERATE, env.values, w, bound);
    var r := m.calls(w, ITERATE, [env.values[n], env.values[n + 1]]);
    if r.Returned? {
      var st := env.values + [r.value];
      StoreLocalStep(m, at + |calls|, n + 1, st, r.world, bound);
      assert st[n + 1 := r.value] == env.values[n + 1 := r.value] + [r.value];
      ReachTrans(m, State(at, env.values, w), 3, State(at + |calls|, st, r.world), 1,
                 State(at + |calls| + 2, st[n + 1 := r.value], r.world), bound);
    }
  }

  lemma AdvanceCode(m: Machine, names: seq<string>, at: nat, x: string, body: Stmt, bound: nat)
    requires ReadyFor(m, names, at, x, body, bound)
    ensures var n, t := |names|, m.tables;
            var calls := GenLoadLocal(n) + GenLoadLocal(n + 1) + GenCall(t, 1, ITERATE);
            && TablesFit(t) && ITERATE in t.methods && n + 2 <= 255 && n + 4 <= bound
            && At(m.code, at, calls) && At(m.code, at + |calls|, GenStoreLocal(n + 1))
            && at + |calls| + 2 == at + ItemOffset(names) - 3
            && |calls| == |GenLoadLocal(n)| + |GenLoadLocal(n + 1)| + 3
  {
    hide *;
    var n, t := |names|, m.tables;
    ForReady(m, names, at, x, body, bound);
    ReadyForCode(m, names, at, x, body, bound);
    ForCode(m.code, m.tables, names, at, x, body);
    AdvanceIs(t, n);
    AtConcat(m.code, at, GenLoadLocal(n) + GenLoadLocal(n + 1) + GenCall(t, 1, ITERATE), GenStoreLocal(n + 1));
  }

  lemma ReadyForCode(m: Machine, names: seq<string>, at: nat, x: string, body: Stmt, bound: nat)
    requires ReadyFor(m, names, at, x, body, bound)
    ensures At(m.code, at, GenForLoop(m.tables, names, at, x, body))
  {
    hide At, GenForLoop, Encodable, HeightStmt, SizeForLoop;
  }

  lemma AdvanceIs(t: Tables, n: nat)
    ensures GenAdvance(t, n) == GenLoadLocal(n) + GenLoadLocal(n + 1) + GenCall(t, 1, ITERATE) + GenStoreLocal(n + 1)
    ensures |GenStoreLocal(n + 1)| == 2
    ensures GenItem(t, n) == GenLoadLocal(n) + GenLoadLocal(n + 1) + GenCall(t, 1, ITERATOR_VALUE)
  {
  }

  // After [j] steps the new iterator [v] is stored, and on top of the locals.
  lemma {:induction false} SimTested(
      m: Machine, fuel: nat, names: seq<string>, start: State, j: nat, env: Env, v: Value, w: World, at: nat,
      outer: LoopInfo, x: string, body: Stmt, bound: nat) returns (k: nat)
    requires j > 0 && fuel > 0 && WellFormed(body) && IsStatement(body)
    requires Iterating(names, env) && |env.names| == |names| + 2 && env.values[|names| + 1] == v
    requires ReadyFor(m, names, at, x, body, bound)
    requires Reach(m, start, j, State(at + ItemOffset(names) - 3, env.values + [v], w), bound)
    ensures Delivers(m, start, k, at + SizeForLoop(names, x, body), outer, fuel,
            ForTested(m.calls, fuel, env, w, x, body), bound)
    decreases fuel, body, 5
  {
    hide *;
    ForReady(m, names, at, x, body, bound);
    ItemCode(m, names, at, x, body, bound);
    TestedIs(m.calls, fuel, env, w, x, body);
    var n := |names|;
    var atI, atB := at + ItemOffset(names), at + BodyOffset(names);
    var end := at + SizeForLoop(names, x, body);
    ThenTest(m, start, j, env, w, atI - 3, end - atI, v, bound);
    if v.Falsy() {
      k := j + 1;
      ReachedNormal(m, start, k, end, outer, fuel, env, w, bound);
    } else {
      SimHiddenCall(m, atI, n, ITERATOR_VALUE, env.values, w, bound);
      var r := m.calls(w, ITERATOR_VALUE, [env.values[n], env.values[n + 1]]);
      if r.Returned? {
        ReachTrans(m, start, j + 1, State(atI, env.values, w), 3, State(atB, env.values + [r.value], r.world), bound);
        k := SimItem(m, fuel, names, start, j + 4, env, r.value, r.world, at, outer, x, body, bound);
      } else {
        ReachEnds(m, start, j + 1, State(atI, env.values, w), 2, Crashed(r.world), bound);
        k := j + 3;
        FailedDelivers(m, start, k, end, outer, fuel, r.world, bound);
      }
    }
  }

  lemma ItemCode(m: Machine, names: seq<string>, at: nat, x: string, body: Stmt, bound: nat)
    requires ReadyFor(m, names, at, x, body, bound)
    ensures var n := |names|;
            var atI, atB := at + ItemOffset(names), at + BodyOffset(names);
            && at + 3 <= atI <= at + SizeForLoop(names, x, body)
            && At(m.code, atI - 3, GenJump(CODE_JUMP_IF, at + SizeForLoop(names, x, body) - atI))
            && At(m.code, atI, GenLoadLocal(n) + GenLoadLocal(n + 1) + GenCall(m.tables, 1, ITERATOR_VALUE))
            && atB == atI + |GenLoadLocal(n)| + |GenLoadLocal(n + 1)| + 3
  {
    hide *;
    ForReady(m, names, at, x, body, bound);
    ReadyForCode(m, names, at, x, body, bound);
    ForCode(m.code, m.tables, names, at, x, body);
    AdvanceIs(m.tables, |names|);
  }

  lemma TestedIs(calls: Calls, fuel: nat, env: Env, w: World, x: string, body: Stmt)
    requires fuel > 0 && WellFormed(body) && IsStatement(body) && |env.names| >= 2
    ensures var n := |env.names|;
            var r := calls(w, ITERATOR_VALUE, [env.values[n - 2], env.values[n - 1]]);
            && (env.values[n - 1].Falsy() ==> ForTested(calls, fuel, env, w, x, body) == Normal(env, w))
            && (!env.values[n - 1].Falsy() && r.Raised? ==> ForTested(calls, fuel, env, w, x, body) == Failed(r.world))
            && (!env.values[n - 1].Falsy() && r.Returned? ==>
                  var o := EvalStmt(calls, fuel, Bind(env, x, r.value), r.world, body);
                  (o.Normal? || o.Continued? ==> n <= |o.env.names|)
                  && ForTested(calls, fuel, env, w, x, body) == AfterItem(calls, fuel, n, x, body, o))
  {
    var n := |env.names|;
    var r := calls(w, ITERATOR_VALUE, [env.values[n - 2], env.values[n - 1]]);
    if r.Returned? { BodyInScope(calls, fuel, Bind(env, x, r.value), r.world, body); }
    hide EvalStmt, AfterItem;
  }

  // After [j] steps the item is in the slot of the loop variable, and the body starts.
  lemma {:induction false} SimItem(
      m: Machine, fuel: nat, names: seq<string>, start: State, j: nat, env: Env, item: Value, w: World, at: nat,
      outer: LoopInfo, x: string, body: Stmt, bound: nat) returns (k: nat)
    requires j > 0 && fuel > 0 && WellFormed(body) && IsStatement(body)
    requires Iterating(names, env) && |env.names| == |names| + 2 && ReadyFor(m, names, at, x, body, bound)
    requires Reach(m, start, j, State(at + BodyOffset(names), env.values + [item], w), bound)
    ensures var o := EvalStmt(m.calls, fuel, Bind(env, x, item), w, body);
            && (o.Normal? || o.Continued? ==> |env.names| <= |o.env.names|)
            && Delivers(m, start, k, at + SizeForLoop(names, x, body), outer, fuel,
                        AfterItem(m.calls, fuel, |env.names|, x, body, o), bound)
    decreases fuel, body, 4
  {
    hide *;
    ForReady(m, names, at, x, body, bound);
    BindItem(names, env, x, item);
    LoopInfoIs(names, at, x, body);
    var inner := Bind(env, x, item);
    var n := |env.names|;
    var loop := ForBodyLoop(names, at, x, body);
    var atB, end := at + BodyOffset(names), at + SizeForLoop(names, x, body);
    var atE := atB + SizeStmt(inner.names, n, body);
    var o := EvalStmt(m.calls, fuel, inner, w, body);
    k := RunNext(m, fuel, start, j, inner, w, atB, loop, body, bound);
    BodyInScope(m.calls, fuel, inner, w, body);
    AfterItemIs(m.calls, fuel, n, x, body, o);
    var next, next' := BackToHead(m, fuel, names, start, k, env, item, w, at, x, body, o, bound);
    if o.Normal? || o.Continued? {
      var i := SimFor(m, fuel - 1, names, next, o.world, at, outer, x, body, bound);
      var o2 := EvalFor(m.calls, fuel - 1, next, o.world, x, body);
      ThenDelivers(m, start, next', State(at, next.values, o.world), i, end, outer, fuel - 1, o2, bound);
      k := next' + i;
      DeliversElsewhere(m, start, k, end, outer, fuel - 1 + next', o2, bound, end, outer, fuel);
    } else if o.Broke? {
      ReachedNormal(m, start, k, end, outer, fuel, next, o.world, bound);
    } else {
      DeliversElsewhere(m, start, k, atE, loop, fuel, o, bound, end, outer, fuel);
    }
  }

  lemma BindItem(names: seq<string>, env: Env, x: string, item: Value)
    requires Iterating(names, env)
    ensures Bind(env, x, item).names == ForNames(names, x) && Bind(env, x, item).values == env.values + [item]
    ensures |env.names| == |names| + 2
  {
  }

  lemma AfterItemIs(calls: Calls, fuel: nat, n: nat, x: string, body: Stmt, o: Outcome)
    requires fuel > 0 && WellFormed(body) && IsStatement(body)
    requires n >= 2 && (o.Normal? || o.Continued? ==> n <= |o.env.names|)
    ensures (o.Normal? || o.Continued? ==>
               |Cut(o.env, n).names| == n
                   && AfterItem(calls, fuel, n, x, body, o)
                      == EvalFor(calls, fuel - 1, Cut(o.env, n), o.world, x, body))
    ensures o.Broke? ==> AfterItem(calls, fuel, n, x, body, o) == Normal(Cut(o.env, n), o.world)
    ensures !o.Normal? && !o.Continued? && !o.Broke? ==> AfterItem(calls, fuel, n, x, body, o) == o
  {
    hide EvalFor;
  }

  // As BackToStart, but at the end of a for body the loop variable is discarded.
  lemma {:induction false} BackToHead(
      m: Machine, fuel: nat, names: seq<string>, start: State, j: nat, env: Env, item: Value, w: World, at: nat,
      x: string, body: Stmt, o: Outcome, bound: nat) returns (env': Env, k': nat)
    requires WellFormed(body) && IsStatement(body) && o == EvalStmt(m.calls, fuel, Bind(env, x, item), w, body)
    requires Iterating(names, env) && |env.names| == |names| + 2 && ReadyFor(m, names, at, x, body, bound)
    requires Delivers(m, start, j, at + BodyOffset(names) + SizeStmt(ForNames(names, x), |names| + 2, body),
                      ForBodyLoop(names, at, x, body), fuel, o, bound)
    ensures k' >= j
    ensures o.Normal? || o.Continued? || o.Broke? ==> env' == Cut(o.env, |env.names|) && Iterating(names, env')
    ensures o.Normal? || o.Continued? ==> Reach(m, start, k', State(at, env'.values, o.world), bound)
    ensures o.Broke? ==> Reach(m, start, j, State(at + SizeForLoop(names, x, body), env'.values, o.world), bound)
  {
    hide Step, At, Reach, GenJump, Ends, Runs, EvalStmt, ReadyFor, SizeForLoop, BodyOffset, SizeStmt, ReadyStmt,
         WellFormed;
    BodyInScope(m.calls, fuel, Bind(env, x, item), w, body);
    env', k' := env, j;
    if o.Normal? || o.Continued? || o.Broke? {
      env' := Cut(o.env, |env.names|);
      CutScope(env, x, item, o.env);
      if o.Normal? {
        StatementKeepsNames(m.calls, fuel, Bind(env, x, item), w, body);
        k' := LoopAgain(m, names, start, j, o.env, o.world, at, x, body, bound);
      }
    }
  }

  lemma CutScope(env: Env, x: string, item: Value, after: Env)
    requires Bind(env, x, item).names <= after.names
    ensures Cut(after, |env.names|).names == env.names && Cut(after, |env.names|).values == after.values[..|env.names|]
  {
  }

  // Discards the loop variable and jumps back.
  lemma {:induction false} LoopAgain(
      m: Machine, names: seq<string>, start: State, j: nat, env: Env, w: World, at: nat, x: string, body: Stmt,
      bound: nat) returns (k: nat)
    requires ReadyFor(m, names, at, x, body, bound) && |env.names| == |names| + 3
    requires Reach(m, start, j,
             State(at + BodyOffset(names) + SizeStmt(ForNames(names, x), |names| + 2, body), env.values, w), bound)
    ensures k == j + 2 && Reach(m, start, k, State(at, env.values[..|names| + 2], w), bound)
  {
    hide *;
    TailCode(m, names, at, x, body, bound);
    var n := |names| + 2;
    var atE := at + BodyOffset(names) + SizeStmt(ForNames(names, x), n, body);
    var kept := env.values[..n];
    assert env.values == kept + [env.values[n]];
    PopStep(m, atE, kept, env.values[n], w, bound);
    JumpStep(m, atE + 1, CODE_LOOP, SizeForLoop(names, x, body), kept, w, bound);
    ReachTrans(m, start, j, State(atE, env.values, w), 1, State(atE + 1, kept, w), bound);
    ReachTrans(m, start, j + 1, State(atE + 1, kept, w), 1, State(at, kept, w), bound);
    k := j + 2;
  }

  lemma TailCode(m: Machine, names: seq<string>, at: nat, x: string, body: Stmt, bound: nat)
    requires ReadyFor(m, names, at, x, body, bound)
    ensures var size := SizeForLoop(names, x, body);
            var atE := at + BodyOffset(names) + SizeStmt(ForNames(names, x), |names| + 2, body);
            && |names| + 3 < bound && size < 0x1_0000 && atE + 1 + 3 - size == at
            && At(m.code, atE, [CODE_POP]) && At(m.code, atE + 1, GenJump(CODE_LOOP, size))
  {
    hide *;
    ForReady(m, names, at, x, body, bound);
    ReadyForCode(m, names, at, x, body, bound);
    ForCode(m.code, m.tables, names, at, x, body);
  }

  lemma ForInReady(
      m: Machine, names: seq<string>, at: nat, loop: LoopInfo, x: string, sequence: Expr, body: Stmt, bound: nat)
    requires ReadyStmt(m, names, at, loop, ForIn(x, sequence, body), bound)
    ensures Ready(m, names, at, sequence, 0, bound)
    ensures At(m.code, at + SizeExpr(names, sequence), [CODE_NULL])
    ensures ReadyFor(m, names, at + SizeExpr(names, sequence) + 1, x, body, bound) && |names| + 4 <= bound
    ensures At(m.code, at + SizeExpr(names, sequence) + 1 + SizeForLoop(names, x, body), Pops(2))
    ensures SizeStmt(names, loop.locals, ForIn(x, sequence, body))
            == SizeExpr(names, sequence) + 1 + SizeForLoop(names, x, body) + 2
  {
    hide *;
    var t, at1 := m.tables, at + SizeExpr(names, sequence) + 1;
    ReadyParts(m, names, at, loop, ForIn(x, sequence, body), bound);
    ForInEncodable(t, names, loop.locals, x, sequence, body);
    LoopSizes(names, loop.locals, sequence, body, x);
    ForInForm(t, names, at, loop, x, sequence, body);
    ForLoopSize(t, names, at1, x, body);
    AtConcat3(m.code, at, GenExpr(t, names, sequence) + [CODE_NULL], GenForLoop(t, names, at1, x, body), Pops(2));
    AtConcat(m.code, at, GenExpr(t, names, sequence), [CODE_NULL]);
    ForInParted(m, names, at, x, sequence, body, bound);
  }

  lemma ReadyParts(m: Machine, names: seq<string>, at: nat, loop: LoopInfo, s: Stmt, bound: nat)
    requires ReadyStmt(m, names, at, loop, s, bound)
    ensures TablesFit(m.tables) && Encodable(m.tables, names, loop.locals, s)
    ensures At(m.code, at, GenStmt(m.tables, names, at, loop, s)) && |names| + HeightStmt(names, s) <= bound
  {
    hide At, GenStmt, LocalsFit, WellFormed, CoversStmt, JumpsFitStmt, HeightStmt, TablesFit, Inside;
  }

  lemma ForInParted(m: Machine, names: seq<string>, at: nat, x: string, sequence: Expr, body: Stmt, bound: nat)
    requires TablesFit(m.tables) && |names| <= 256
    requires CoversExpr(m.tables, names, sequence) && JumpsFitExpr(names, sequence)
    requires Encodable(m.tables, ForNames(names, x), |names| + 2, body) && IsStatement(body)
    requires ITERATE in m.tables.methods && ITERATOR_VALUE in m.tables.methods && SizeForLoop(names, x, body) < 0x1_0000
    requires At(m.code, at, GenExpr(m.tables, names, sequence))
    requires At(m.code, at + SizeExpr(names, sequence) + 1,
             GenForLoop(m.tables, names, at + SizeExpr(names, sequence) + 1, x, body))
    requires |names| + Max(HeightExpr(sequence), Max(4, 3 + HeightStmt(ForNames(names, x), body))) <= bound
    ensures Ready(m, names, at, sequence, 0, bound)
    ensures ReadyFor(m, names, at + SizeExpr(names, sequence) + 1, x, body, bound) && |names| + 4 <= bound
  {
    hide TablesFit, CoversExpr, JumpsFitExpr, Encodable, ForNames, SizeForLoop, SizeExpr, At, GenExpr, GenForLoop,
         HeightExpr, HeightStmt;
  }

  lemma ForInEncodable(t: Tables, names: seq<string>, kept: nat, x: string, sequence: Expr, body: Stmt)
    requires Encodable(t, names, kept, ForIn(x, sequence, body))
    ensures Encodable(t, ForNames(names, x), |names| + 2, body) && IsStatement(body)
    ensures CoversExpr(t, names, sequence) && JumpsFitExpr(names, sequence) && |names| <= 256
    ensures ITERATE in t.methods && ITERATOR_VALUE in t.methods && SizeForLoop(names, x, body) < 0x1_0000
    ensures HeightStmt(names, ForIn(x, sequence, body))
         == Max(HeightExpr(sequence), Max(4, 3 + HeightStmt(ForNames(names, x), body)))
  {
    hide SizeStmt, CoversExpr, JumpsFitExpr, HeightExpr, SizeForLoop, ForNames;
  }

  lemma ForInEval(calls: Calls, fuel: nat, env: Env, w: World, x: string, sequence: Expr, body: Stmt)
    requires WellFormed(body) && IsStatement(body)
    ensures var r := EvalExpr(calls, env, w, sequence);
            && (r.Abort? ==> EvalStmt(calls, fuel, env, w, ForIn(x, sequence, body)) == Failed(r.world))
            && (r.Value? ==>
                  && |Hidden(r.env, r.value).names| >= 2 && Iterating(r.env.names, Hidden(r.env, r.value))
                  && Hidden(r.env, r.value).values == r.env.values + [r.value] + [Null]
                  && EvalStmt(calls, fuel, env, w, ForIn(x, sequence, body))
                     == Leave(|env.names|, EvalFor(calls, fuel, Hidden(r.env, r.value), r.world, x, body)))
  {
    hide EvalExpr, EvalFor;
  }

  lemma {:induction false} SimForIn(
      m: Machine, fuel: nat, env: Env, w: World, at: nat, loop: LoopInfo, x: string, sequence: Expr, body: Stmt,
      bound: nat) returns (k: nat)
    requires WellFormed(body) && IsStatement(body) && ReadyStmt(m, env.names, at, loop, ForIn(x, sequence, body), bound)
    ensures Delivers(m, State(at, env.values, w), k, at + SizeStmt(env.names, loop.locals, ForIn(x, sequence, body)),
            loop, fuel,
                     EvalStmt(m.calls, fuel, env, w, ForIn(x, sequence, body)), bound)
    decreases fuel, ForIn(x, sequence, body), 0
  {
    hide *;
    ForInReady(m, env.names, at, loop, x, sequence, body, bound);
    ForInEval(m.calls, fuel, env, w, x, sequence, body);
    BodySmaller(x, sequence, body);
    var start := State(at, env.values, w);
    var at1 := at + SizeExpr(env.names, sequence);
    var end := at + SizeStmt(env.names, loop.locals, ForIn(x, sequence, body));
    k := SimTop(m, env, w, at, sequence, bound);
    var r := EvalExpr(m.calls, env, w, sequence);
    match r
    case Value(env', w', v) =>
      var hidden := Hidden(env', v);
      NullStep(m, at1, env'.values + [v], w', bound);
      ReachTrans(m, start, k, State(at1, env'.values + [v], w'), 1, State(at1 + 1, hidden.values, w'), bound);
      var i := SimFor(m, fuel, env.names, hidden, w', at1 + 1, loop, x, body, bound);
      var o := EvalFor(m.calls, fuel, hidden, w', x, body);
      ThenDelivers(m, start, k + 1, State(at1 + 1, hidden.values, w'), i, end - 2, loop, fuel, o, bound);
      k := LeaveHidden(m, start, k + 1 + i, env.names, hidden, w', x, body, end - 2, loop, fuel, fuel + k + 1, o,
          bound);
    case Abort(w') => FailedDelivers(m, start, k, end, loop, fuel, w', bound);
  }

  lemma BodySmaller(x: string, sequence: Expr, body: Stmt)
    ensures body < ForIn(x, sequence, body)
  {
  }

  // The end of a for statement discards its two hidden locals.
  lemma {:induction false} LeaveHidden(
      m: Machine, start: State, j: nat, names: seq<string>, hidden: Env, w: World, x: string, body: Stmt, at: nat,
      loop: LoopInfo, fuel: nat, fuel': nat, o: Outcome, bound: nat) returns (k: nat)
    requires WellFormed(body) && IsStatement(body) && Iterating(names, hidden) && |hidden.names| >= 2
    requires o == EvalFor(m.calls, fuel, hidden, w, x, body) && fuel' >= fuel && |names| + 2 <= bound
    requires At(m.code, at, Pops(2)) && Delivers(m, start, j, at, loop, fuel', o, bound)
    ensures Delivers(m, start, k, at + 2, loop, fuel, Leave(|names|, o), bound)
  {
    hide Step, At, Reach, Ends, Runs, EvalFor, Pops, WellFormed;
    k := j;
    if o.Normal? {
      PopsStep(m, at, o.env.values, |names|, o.world, bound);
      ReachTrans(m, start, j, State(at, o.env.values, o.world), 2, State(at + 2, o.env.values[..|names|], o.world),
          bound);
      k := j + 2;
    }
  }
}
