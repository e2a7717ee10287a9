/** Running the code of an expression leaves exactly its value on the stack. */
module SimulateExpr {
  import opened Syntax
  import opened Semantics
  import opened Bytes
  import opened Bytecode
  import opened CodeGen
  import opened Interpreter
  import opened Sequences

  // ----- What the encoding can hold -----

  predicate TablesFit(t: Tables) {
    |t.consts| <= 0x1_0000 && |t.methods| <= 0x1_0000 && |t.globals| <= 0x1_0000
  }

  predicate CoversName(t: Tables, names: seq<string>, x: string) {
    Innermost(names, x) >= 0 || x in t.globals
  }

  // Everything [e] refers to has an entry in the tables.
  predicate CoversExpr(t: Tables, names: seq<string>, e: Expr) {
    match e
    case Lit(v) => v.Null? || v.False? || v.True? || v in t.consts
    case Variable(x) => CoversName(t, names, x)
    case Assign(x, rhs) => CoversName(t, names, x) && CoversExpr(t, names, rhs)
    case Unary(uop, operand) => UnaryName(uop) in t.methods && CoversExpr(t, names, operand)
    case Binary(op, l, r) => BinaryName(op) in t.methods && CoversExpr(t, names, l) && CoversExpr(t, names, r)
    case And(l, r) => CoversExpr(t, names, l) && CoversExpr(t, names, r)
    case Or(l, r) => CoversExpr(t, names, l) && CoversExpr(t, names, r)
    case Cond(c, y, n) => CoversExpr(t, names, c) && CoversExpr(t, names, y) && CoversExpr(t, names, n)
    case Get(r, name) => name in t.methods && CoversExpr(t, names, r)
    case Set(r, name, rhs) => SetterName(name) in t.methods && CoversExpr(t, names, r) && CoversExpr(t, names, rhs)
  }

  // Every jump in the code of [e] is shorter than 2^16 bytes.
  predicate JumpsFitExpr(names: seq<string>, e: Expr) {
    match e
    case Lit(_) => true
    case Variable(_) => true
    case Assign(_, rhs) => JumpsFitExpr(names, rhs)
    case Unary(_, operand) => JumpsFitExpr(names, operand)
    case Binary(_, l, r) => JumpsFitExpr(names, l) && JumpsFitExpr(names, r)
    case And(l, r) => JumpsFitExpr(names, l) && JumpsFitExpr(names, r) && SizeExpr(names, r) < 0x1_0000
    case Or(l, r) => JumpsFitExpr(names, l) && JumpsFitExpr(names, r) && SizeExpr(names, r) < 0x1_0000
    case Cond(c, y, n) =>
      JumpsFitExpr(names, c) && JumpsFitExpr(names, y) && JumpsFitExpr(names, n)
      && SizeExpr(names, y) + 3 < 0x1_0000 && SizeExpr(names, n) < 0x1_0000
    case Get(r, _) => JumpsFitExpr(names, r)
    case Set(r, _, rhs) => JumpsFitExpr(names, r) && JumpsFitExpr(names, rhs)
  }

  function Max(a: nat, b: nat): nat {
    if a < b then b else a
  }

  // How far evaluating [e] raises the stack.
  function HeightExpr(e: Expr): (r: nat)
    ensures r >= 1
  {
    match e
    case Lit(_) => 1
    case Variable(_) => 1
    case Assign(_, rhs) => HeightExpr(rhs)
    case Unary(_, operand) => HeightExpr(operand)
    case Binary(_, l, r) => Max(HeightExpr(l), 1 + HeightExpr(r))
    case And(l, r) => Max(HeightExpr(l), HeightExpr(r))
    case Or(l, r) => Max(HeightExpr(l), HeightExpr(r))
    case Cond(c, y, n) => Max(HeightExpr(c), Max(HeightExpr(y), HeightExpr(n)))
    case Get(r, _) => HeightExpr(r)
    case Set(r, _, rhs) => Max(HeightExpr(r), 1 + HeightExpr(rhs))
  }

  // The code of [e] is at [at], its operands and jumps fit their encodings, and
  // there is room for it above [temps] temporaries.
  ghost predicate Ready(m: Machine, names: seq<string>, at: nat, e: Expr, temps: nat, bound: nat) {
    match m
    case Machine(code, tables, _) =>
      && TablesFit(tables) && |names| <= 256
      && At(code, at, GenExpr(tables, names, e))
      && CoversExpr(tables, names, e) && JumpsFitExpr(names, e)
      && |names| + temps + HeightExpr(e) <= bound
  }

  // ----- Single instructions -----

  lemma LiteralStep(m: Machine, at: nat, v: Value, st: seq<Value>, w: World, bound: nat)
    requires TablesFit(m.tables) && At(m.code, at, GenLiteral(m.tables, v)) && |st| < bound
    requires v.Null? || v.False? || v.True? || v in m.tables.consts
    ensures Reach(m, State(at, st, w), 1, State(at + |GenLiteral(m.tables, v)|, st + [v], w), bound)
  {
    AtByte(m.code, at, GenLiteral(m.tables, v), 0);
    if !(v.Null? || v.False? || v.True?) {
      AtByte(m.code, at, GenLiteral(m.tables, v), 1);
      AtByte(m.code, at, GenLiteral(m.tables, v), 2);
    }
    assert Step(m, State(at, st, w)) == Next(State(at + |GenLiteral(m.tables, v)|, st + [v], w));
    assert Reach(m, State(at + |GenLiteral(m.tables, v)|, st + [v], w), 0,
        State(at + |GenLiteral(m.tables, v)|, st + [v], w), bound);
  }

  lemma LoadLocalStep(m: Machine, at: nat, slot: nat, st: seq<Value>, w: World, bound: nat)
    requires slot < 256 && slot < |st| < bound && At(m.code, at, GenLoadLocal(slot))
    ensures Reach(m, State(at, st, w), 1, State(at + |GenLoadLocal(slot)|, st + [st[slot]], w), bound)
  {
    AtByte(m.code, at, GenLoadLocal(slot), 0);
    if slot > 8 { AtByte(m.code, at, GenLoadLocal(slot), 1); }
    var next := State(at + |GenLoadLocal(slot)|, st + [st[slot]], w);
    assert Step(m, State(at, st, w)) == Next(next);
    assert Reach(m, next, 0, next, bound);
  }

  lemma StoreLocalStep(m: Machine, at: nat, slot: nat, st: seq<Value>, w: World, bound: nat)
    requires slot < 256 && slot < |st| <= bound && At(m.code, at, GenStoreLocal(slot))
    ensures Reach(m, State(at, st, w), 1, State(at + 2, st[slot := st[|st| - 1]], w), bound)
  {
    AtByte(m.code, at, GenStoreLocal(slot), 0);
    AtByte(m.code, at, GenStoreLocal(slot), 1);
    var next := State(at + 2, st[slot := st[|st| - 1]], w);
    assert Step(m, State(at, st, w)) == Next(next);
    assert Reach(m, next, 0, next, bound);
  }

  lemma AtShort(code: seq<byte>, at: nat, op: byte, n: nat)
    requires n < 0x1_0000 && At(code, at, [op] + Short(n))
    ensures at + 3 <= |code| && code[at] == op && ReadShort(code, at + 1) == n
  {
    AtByte(code, at, [op] + Short(n), 0);
    AtByte(code, at, [op] + Short(n), 1);
    AtByte(code, at, [op] + Short(n), 2);
  }

  lemma LoadGlobalStep(m: Machine, at: nat, x: string, st: seq<Value>, w: World, bound: nat)
    requires TablesFit(m.tables) && x in m.tables.globals && |st| < bound
    requires At(m.code, at, [CODE_LOAD_MODULE_VAR] + Short(IndexOf(m.tables.globals, x)))
    ensures Reach(m, State(at, st, w), 1, State(at + 3, st + [Global(w, x)], w), bound)
  {
    AtShort(m.code, at, CODE_LOAD_MODULE_VAR, IndexOf(m.tables.globals, x));
    var next := State(at + 3, st + [Global(w, x)], w);
    assert Step(m, State(at, st, w)) == Next(next);
    assert Reach(m, next, 0, next, bound);
  }

  lemma StoreGlobalStep(m: Machine, at: nat, x: string, st: seq<Value>, w: World, bound: nat)
    requires TablesFit(m.tables) && x in m.tables.globals && 0 < |st| <= bound
    requires At(m.code, at, [CODE_STORE_MODULE_VAR] + Short(IndexOf(m.tables.globals, x)))
    ensures Reach(m, State(at, st, w), 1, State(at + 3, st, w.(globals := w.globals[x := st[|st| - 1]])), bound)
  {
    AtShort(m.code, at, CODE_STORE_MODULE_VAR, IndexOf(m.tables.globals, x));
    var next := State(at + 3, st, w.(globals := w.globals[x := st[|st| - 1]]));
    assert Step(m, State(at, st, w)) == Next(next);
    assert Reach(m, next, 0, next, bound);
  }

  // A call replaces the receiver and arguments by the result, or aborts.
  lemma CallStep(m: Machine, at: nat, name: string, base: seq<Value>, args: seq<Value>, w: World, bound: nat)
    requires TablesFit(m.tables) && name in m.tables.methods
    requires 1 <= |args| <= 17 && At(m.code, at, GenCall(m.tables, |args| - 1, name))
    requires |base + args| <= bound
    ensures m.calls(w, name, args).Returned? ==>
              Reach(m, State(at, base + args, w), 1,
                    State(at + 3, base + [m.calls(w, name, args).value], m.calls(w, name, args).world), bound)
    ensures m.calls(w, name, args).Raised? ==>
              Ends(m, State(at, base + args, w), 0, Crashed(m.calls(w, name, args).world), bound)
  {
    var s := State(at, base + args, w);
    AtShort(m.code, at, CODE_CALL_0 + (|args| - 1), IndexOf(m.tables.methods, name));
    assert s.stack[|s.stack| - |args|..] == args && s.stack[..|s.stack| - |args|] == base;
    assert Step(m, s) == StepCall(m, s, |args|, IndexOf(m.tables.methods, name));
    if m.calls(w, name, args).Returned? {
      var next := State(at + 3, base + [m.calls(w, name, args).value], m.calls(w, name, args).world);
      assert Reach(m, next, 0, next, bound);
    }
  }

  lemma JumpStep(m: Machine, at: nat, op: byte, n: nat, st: seq<Value>, w: World, bound: nat)
    requires n < 0x1_0000 && At(m.code, at, GenJump(op, n)) && |st| <= bound
    ensures op == CODE_JUMP ==> Reach(m, State(at, st, w), 1, State(at + 3 + n, st, w), bound)
    ensures op == CODE_LOOP && n <= at + 3 ==> Reach(m, State(at, st, w), 1, State(at + 3 - n, st, w), bound)
  {
    AtShort(m.code, at, op, n);
    if op == CODE_JUMP {
      assert Step(m, State(at, st, w)) == Next(State(at + 3 + n, st, w));
      assert Reach(m, State(at + 3 + n, st, w), 0, State(at + 3 + n, st, w), bound);
    }
    if op == CODE_LOOP && n <= at + 3 {
      assert Step(m, State(at, st, w)) == Next(State(at + 3 - n, st, w));
      assert Reach(m, State(at + 3 - n, st, w), 0, State(at + 3 - n, st, w), bound);
    }
  }

  // The conditional jumps, with the condition [v] on top of [st].
  lemma BranchStep(m: Machine, at: nat, op: byte, n: nat, st: seq<Value>, v: Value, w: World, bound: nat)
    returns (taken: bool, next: State)
    requires n < 0x1_0000 && At(m.code, at, GenJump(op, n)) && |st| < bound
    requires op == CODE_JUMP_IF || op == CODE_AND || op == CODE_OR
    ensures taken == (if op == CODE_OR then !v.Falsy() else v.Falsy())
    ensures next == State(if taken then at + 3 + n else at + 3,
                          if taken && op != CODE_JUMP_IF then st + [v] else st, w)
    ensures Reach(m, State(at, st + [v], w), 1, next, bound)
  {
    AtShort(m.code, at, op, n);
    taken := if op == CODE_OR then !v.Falsy() else v.Falsy();
    next := State(if taken then at + 3 + n else at + 3,
                  if taken && op != CODE_JUMP_IF then st + [v] else st, w);
    assert (st + [v])[..|st + [v]| - 1] == st;
    assert Step(m, State(at, st + [v], w)) == Next(next);
    assert Reach(m, next, 0, next, bound);
  }

  // ----- Expressions -----

  // The stack of a frame: the locals, then the temporaries.
  function Frame(env: Env, temps: seq<Value>): (r: seq<Value>)
    ensures |r| == |env.names| + |temps|
  {
    env.values + temps
  }

  lemma FramePush(env: Env, temps: seq<Value>, v: Value)
    ensures Frame(env, temps) + [v] == Frame(env, temps + [v])
  {
  }

  // From [start], [k] steps deliver the result [r]: either its value is pushed on
  // [temps] and control is at [at], or the run aborts.
  ghost predicate Yields(m: Machine, start: State, k: nat, at: nat, temps: seq<Value>, r: ExprResult, bound: nat) {
    match r
    case Value(env, w, v) => Reach(m, start, k, State(at, Frame(env, temps + [v]), w), bound)
    case Abort(w) => Ends(m, start, k, Crashed(w), bound)
  }

  // The machine does in [k] steps what direct evaluation of [e] does.
  lemma {:induction false} SimExpr(m: Machine, env: Env, w: World, at: nat, e: Expr, temps: seq<Value>, bound: nat)
    returns (k: nat)
    requires Ready(m, env.names, at, e, |temps|, bound)
    ensures Yields(m, State(at, Frame(env, temps), w), k, at + SizeExpr(env.names, e), temps,
            EvalExpr(m.calls, env, w, e), bound)
    decreases e, 1
  {
    hide Yields, Ready, EvalExpr, SizeExpr, BinaryName, UnaryName, SetterName;
    match e
    case Lit(v) => k := SimLiteral(m, env, w, at, v, temps, bound);
    case Variable(x) => k := SimVariable(m, env, w, at, x, temps, bound);
    case Assign(x, rhs) => k := SimAssign(m, env, w, at, x, rhs, temps, bound);
    case Unary(uop, operand) => k := SimCall1(m, env, w, at, e, operand, UnaryName(uop), temps, bound);
    case Get(receiver, name) => k := SimCall1(m, env, w, at, e, receiver, name, temps, bound);
    case Binary(op, l, r) => k := SimCall2(m, env, w, at, e, l, r, BinaryName(op), temps, bound);
    case Set(receiver, name, rhs) => k := SimCall2(m, env, w, at, e, receiver, rhs, SetterName(name), temps, bound);
    case And(l, r) => k := SimLogical(m, env, w, at, e, CODE_AND, l, r, temps, bound);
    case Or(l, r) => k := SimLogical(m, env, w, at, e, CODE_OR, l, r, temps, bound);
    case Cond(c, y, n) => k := SimCond(m, env, w, at, c, y, n, temps, bound);
  }

  lemma {:induction false} SimLiteral(m: Machine, env: Env, w: World, at: nat, v: Value, temps: seq<Value>, bound: nat)
    returns (k: nat)
    requires Ready(m, env.names, at, Lit(v), |temps|, bound)
    ensures Yields(m, State(at, Frame(env, temps), w), k, at + SizeExpr(env.names, Lit(v)), temps,
                   EvalExpr(m.calls, env, w, Lit(v)), bound)
  {
    k := 1;
    LiteralStep(m, at, v, Frame(env, temps), w, bound);
    FramePush(env, temps, v);
  }

  lemma {:induction false} SimVariable(
      m: Machine, env: Env, w: World, at: nat, x: string, temps: seq<Value>, bound: nat) returns (k: nat)
    requires Ready(m, env.names, at, Variable(x), |temps|, bound)
    ensures Yields(m, State(at, Frame(env, temps), w), k, at + SizeExpr(env.names, Variable(x)), temps,
                   EvalExpr(m.calls, env, w, Variable(x)), bound)
  {
    k := 1;
    var slot := Innermost(env.names, x);
    if slot >= 0 {
      LoadLocalStep(m, at, slot, Frame(env, temps), w, bound);
      FramePush(env, temps, env.values[slot]);
    } else {
      LoadGlobalStep(m, at, x, Frame(env, temps), w, bound);
      FramePush(env, temps, Global(w, x));
    }
  }

  // ----- Continuing a run -----

  // An aborted run never gets to where it would have continued.
  lemma AbortYields(
      m: Machine, start: State, k: nat, at: nat, temps: seq<Value>, at': nat, temps': seq<Value>, r: ExprResult,
      bound: nat)
    requires Yields(m, start, k, at, temps, r, bound) && r.Abort?
    ensures Yields(m, start, k, at', temps', r, bound)
  {
  }

  lemma ValueReached(m: Machine, start: State, k: nat, at: nat, temps: seq<Value>, r: ExprResult, bound: nat)
    requires Yields(m, start, k, at, temps, r, bound) && r.Value?
    ensures Reach(m, start, k, State(at, Frame(r.env, temps + [r.value]), r.world), bound)
  {
  }

  // After [j] steps the machine is in [mid], from which [i] more deliver [r].
  lemma {:induction false} ThenYields(
      m: Machine, start: State, j: nat, mid: State, i: nat, at: nat, temps: seq<Value>, r: ExprResult, bound: nat)
    requires Reach(m, start, j, mid, bound) && Yields(m, mid, i, at, temps, r, bound)
    ensures Yields(m, start, j + i, at, temps, r, bound)
  {
    match r
    case Value(env, w, v) => ReachTrans(m, start, j, mid, i, State(at, Frame(env, temps + [v]), w), bound);
    case Abort(w) => ReachEnds(m, start, j, mid, i, Crashed(w), bound);
  }

  // After [j] steps the receiver and arguments are on the stack.
  lemma {:induction false} ThenCall(
      m: Machine, start: State, j: nat, env: Env, w: World, at: nat, temps: seq<Value>, args: seq<Value>, name: string,
      bound: nat) returns (k: nat)
    requires TablesFit(m.tables) && name in m.tables.methods
    requires 1 <= |args| <= 17 && At(m.code, at, GenCall(m.tables, |args| - 1, name))
    requires Reach(m, start, j, State(at, Frame(env, temps + args), w), bound)
    requires |env.names| + |temps| + |args| <= bound
    ensures Yields(m, start, k, at + 3, temps, EvalCall(m.calls, env, w, name, args), bound)
  {
    var base := Frame(env, temps);
    assert base + args == Frame(env, temps + args);
    CallStep(m, at, name, base, args, w, bound);
    match m.calls(w, name, args)
    case Returned(v, w') =>
      FramePush(env, temps, v);
      ReachTrans(m, start, j, State(at, base + args, w), 1, State(at + 3, base + [v], w'), bound);
      k := j + 1;
    case Raised(w') =>
      ReachEnds(m, start, j, State(at, base + args, w), 0, Crashed(w'), bound);
      k := j;
  }

  // After [j] steps the value to store is on top of the stack.
  lemma {:induction false} ThenStore(
      m: Machine, start: State, j: nat, env: Env, w: World, at: nat, temps: seq<Value>, x: string, v: Value, bound: nat)
    requires TablesFit(m.tables) && |env.names| <= 256 && CoversName(m.tables, env.names, x)
    requires At(m.code, at, GenStore(m.tables, env.names, x))
    requires Reach(m, start, j, State(at, Frame(env, temps + [v]), w), bound)
    requires |env.names| + |temps| + 1 <= bound
    ensures Yields(m, start, j + 1, at + |GenStore(m.tables, env.names, x)|, temps, Store(env, w, x, v), bound)
  {
    var stack := Frame(env, temps + [v]);
    var slot := Innermost(env.names, x);
    var stored := Store(env, w, x, v);
    if slot >= 0 {
      StoreLocalStep(m, at, slot, stack, w, bound);
      assert stack[slot := v] == Frame(stored.env, temps + [v]);
    } else {
      StoreGlobalStep(m, at, x, stack, w, bound);
    }
    ReachTrans(m, start, j, State(at, stack, w), 1,
               State(at + |GenStore(m.tables, env.names, x)|, Frame(stored.env, temps + [v]), stored.world), bound);
  }

  // After [j] steps the condition [v] is on top of the stack.
  lemma {:induction false} ThenBranch(
      m: Machine, start: State, j: nat, env: Env, w: World, at: nat, temps: seq<Value>, op: byte, n: nat, v: Value,
      bound: nat) returns (taken: bool)
    requires n < 0x1_0000 && At(m.code, at, GenJump(op, n)) && |env.names| + |temps| < bound
    requires op == CODE_JUMP_IF || op == CODE_AND || op == CODE_OR
    requires Reach(m, start, j, State(at, Frame(env, temps + [v]), w), bound)
    ensures taken == (if op == CODE_OR then !v.Falsy() else v.Falsy())
    ensures !taken ==> Reach(m, start, j + 1, State(at + 3, Frame(env, temps), w), bound)
    ensures taken && op == CODE_JUMP_IF ==> Reach(m, start, j + 1, State(at + 3 + n, Frame(env, temps), w), bound)
    ensures taken && op != CODE_JUMP_IF ==> Yields(m, start, j + 1, at + 3 + n, temps, Value(env, w, v), bound)
  {
    FramePush(env, temps, v);
    var next;
    taken, next := BranchStep(m, at, op, n, Frame(env, temps), v, w, bound);
    ReachTrans(m, start, j, State(at, Frame(env, temps + [v]), w), 1, next, bound);
  }

  // A result is delivered, and the code jumps forward over [n] bytes.
  lemma {:induction false} ThenJump(
      m: Machine, start: State, j: nat, at: nat, temps: seq<Value>, r: ExprResult, n: nat, bound: nat) returns (k: nat)
    requires n < 0x1_0000 && At(m.code, at, GenJump(CODE_JUMP, n))
    requires Yields(m, start, j, at, temps, r, bound)
    requires r.Value? ==> |r.env.names| + |temps| < bound
    ensures Yields(m, start, k, at + 3 + n, temps, r, bound)
  {
    match r
    case Value(env, w, v) =>
      var stack := Frame(env, temps + [v]);
      JumpStep(m, at, CODE_JUMP, n, stack, w, bound);
      ReachTrans(m, start, j, State(at, stack, w), 1, State(at + 3 + n, stack, w), bound);
      k := j + 1;
    case Abort(_) => k := j;
  }

  // ----- Compound expressions -----

  // Each form lemma unfolds the definitions for one construct; the lemma after it
  // only composes runs.

  lemma {:induction false} AssignForm(
      m: Machine, env: Env, w: World, at: nat, x: string, rhs: Expr, temps: seq<Value>, bound: nat)
    requires Ready(m, env.names, at, Assign(x, rhs), |temps|, bound)
    ensures Ready(m, env.names, at, rhs, |temps|, bound)
    ensures TablesFit(m.tables) && |env.names| <= 256 && CoversName(m.tables, env.names, x)
            && |env.names| + |temps| + 1 <= bound
    ensures At(m.code, at + SizeExpr(env.names, rhs), GenStore(m.tables, env.names, x))
    ensures SizeExpr(env.names, Assign(x, rhs)) == SizeExpr(env.names, rhs) + |GenStore(m.tables, env.names, x)|
    ensures var r := EvalExpr(m.calls, env, w, rhs);
            EvalExpr(m.calls, env, w, Assign(x, rhs)) == if r.Abort? then r else Store(r.env, r.world, x, r.value)
  {
    AtConcat(m.code, at, GenExpr(m.tables, env.names, rhs), GenStore(m.tables, env.names, x));
  }

  lemma {:induction false} SimAssign(
      m: Machine, env: Env, w: World, at: nat, x: string, rhs: Expr, temps: seq<Value>, bound: nat) returns (k: nat)
    requires Ready(m, env.names, at, Assign(x, rhs), |temps|, bound)
    ensures Yields(m, State(at, Frame(env, temps), w), k, at + SizeExpr(env.names, Assign(x, rhs)), temps,
                   EvalExpr(m.calls, env, w, Assign(x, rhs)), bound)
    decreases Assign(x, rhs), 0
  {
    hide *;
    AssignForm(m, env, w, at, x, rhs, temps, bound);
    var start := State(at, Frame(env, temps), w);
    var at' := at + SizeExpr(env.names, rhs);
    k := SimExpr(m, env, w, at, rhs, temps, bound);
    var r := EvalExpr(m.calls, env, w, rhs);
    if r.Value? {
      ValueReached(m, start, k, at', temps, r, bound);
      ThenStore(m, start, k, r.env, r.world, at', temps, x, r.value, bound);
      k := k + 1;
    } else {
      AbortYields(m, start, k, at', temps, at + SizeExpr(env.names, Assign(x, rhs)), temps, r, bound);
    }
  }

  // One receiver and no arguments: unary operators and getters.
  predicate IsCall1(e: Expr, a: Expr, name: string) {
    (e.Unary? && e.operand == a && name == UnaryName(e.uop)) || (e.Get? && e.receiver == a && e.name == name)
  }

  lemma {:induction false} Call1Form(
      m: Machine, env: Env, w: World, at: nat, e: Expr, a: Expr, name: string, temps: seq<Value>, bound: nat)
    requires IsCall1(e, a, name) && Ready(m, env.names, at, e, |temps|, bound)
    ensures a < e && Ready(m, env.names, at, a, |temps|, bound)
    ensures TablesFit(m.tables) && name in m.tables.methods && |env.names| + |temps| + 1 <= bound
    ensures At(m.code, at + SizeExpr(env.names, a), GenCall(m.tables, 0, name))
    ensures SizeExpr(env.names, e) == SizeExpr(env.names, a) + 3
    ensures var r := EvalExpr(m.calls, env, w, a);
            EvalExpr(m.calls, env, w, e) == if r.Abort? then r else EvalCall(m.calls, r.env, r.world, name, [r.value])
  {
    AtConcat(m.code, at, GenExpr(m.tables, env.names, a), GenCall(m.tables, 0, name));
  }

  lemma {:induction false} SimCall1(
      m: Machine, env: Env, w: World, at: nat, e: Expr, a: Expr, name: string, temps: seq<Value>, bound: nat)
    returns (k: nat)
    requires IsCall1(e, a, name) && Ready(m, env.names, at, e, |temps|, bound)
    ensures Yields(m, State(at, Frame(env, temps), w), k, at + SizeExpr(env.names, e), temps,
            EvalExpr(m.calls, env, w, e), bound)
    decreases e, 0
  {
    hide *;
    Call1Form(m, env, w, at, e, a, name, temps, bound);
    var start := State(at, Frame(env, temps), w);
    var at' := at + SizeExpr(env.names, a);
    k := SimExpr(m, env, w, at, a, temps, bound);
    var r := EvalExpr(m.calls, env, w, a);
    if r.Value? {
      ValueReached(m, start, k, at', temps, r, bound);
      k := ThenCall(m, start, k, r.env, r.world, at', temps, [r.value], name, bound);
    } else {
      AbortYields(m, start, k, at', temps, at' + 3, temps, r, bound);
    }
  }

  // A receiver and one argument: binary operators and setters.
  predicate IsCall2(e: Expr, a: Expr, b: Expr, name: string) {
    || (e.Binary? && e.left == a && e.right == b && name == BinaryName(e.op))
    || (e.Set? && e.receiver == a && e.rhs == b && name == SetterName(e.name))
  }

  lemma {:induction false} Call2Form(
      m: Machine, env: Env, w: World, at: nat, e: Expr, a: Expr, b: Expr, name: string, temps: seq<Value>, bound: nat)
    requires IsCall2(e, a, b, name) && Ready(m, env.names, at, e, |temps|, bound)
    ensures a < e && Ready(m, env.names, at, a, |temps|, bound)
    ensures b < e && Ready(m, env.names, at + SizeExpr(env.names, a), b, |temps| + 1, bound)
    ensures TablesFit(m.tables) && name in m.tables.methods && |env.names| + |temps| + 2 <= bound
    ensures At(m.code, at + SizeExpr(env.names, a) + SizeExpr(env.names, b), GenCall(m.tables, 1, name))
    ensures SizeExpr(env.names, e) == SizeExpr(env.names, a) + SizeExpr(env.names, b) + 3
  {
    hide GenExpr, At;
    Call2Code(m.code, at, m.tables, env.names, e, a, b, name);
  }

  lemma {:induction false} Call2Code(
      code: seq<byte>, at: nat, t: Tables, names: seq<string>, e: Expr, a: Expr, b: Expr, name: string)
    requires IsCall2(e, a, b, name) && At(code, at, GenExpr(t, names, e))
    ensures At(code, at, GenExpr(t, names, a)) && At(code, at + SizeExpr(names, a), GenExpr(t, names, b))
    ensures At(code, at + SizeExpr(names, a) + SizeExpr(names, b), GenCall(t, 1, name))
  {
    hide *;
    Call2Bytes(t, names, e, a, b, name);
    AtConcat3(code, at, GenExpr(t, names, a), GenExpr(t, names, b), GenCall(t, 1, name));
  }

  lemma Call2Bytes(t: Tables, names: seq<string>, e: Expr, a: Expr, b: Expr, name: string)
    requires IsCall2(e, a, b, name)
    ensures GenExpr(t, names, e) == GenExpr(t, names, a) + GenExpr(t, names, b) + GenCall(t, 1, name)
  {
    hide GenCall, SizeExpr;
  }

  lemma {:induction false} Call2Eval(calls: Calls, env: Env, w: World, e: Expr, a: Expr, b: Expr, name: string)
    requires IsCall2(e, a, b, name)
    ensures var l := EvalExpr(calls, env, w, a);
            && (l.Abort? ==> EvalExpr(calls, env, w, e) == l)
            && (l.Value? ==> var r := EvalExpr(calls, l.env, l.world, b);
                             EvalExpr(calls, env, w, e) == if r.Abort? then r
                                 else EvalCall(calls, r.env, r.world, name, [l.value, r.value]))
  {
  }

  lemma TwoPushes(temps: seq<Value>, a: Value, b: Value)
    ensures temps + [a] + [b] == temps + [a, b]
  {
  }

  lemma {:induction false} SimCall2(
      m: Machine, env: Env, w: World, at: nat, e: Expr, a: Expr, b: Expr, name: string, temps: seq<Value>, bound: nat)
    returns (k: nat)
    requires IsCall2(e, a, b, name) && Ready(m, env.names, at, e, |temps|, bound)
    ensures Yields(m, State(at, Frame(env, temps), w), k, at + SizeExpr(env.names, e), temps,
            EvalExpr(m.calls, env, w, e), bound)
    decreases e, 0
  {
    hide *;
    Call2Form(m, env, w, at, e, a, b, name, temps, bound);
    Call2Eval(m.calls, env, w, e, a, b, name);
    var start := State(at, Frame(env, temps), w);
    var at1 := at + SizeExpr(env.names, a);
    var at2 := at1 + SizeExpr(env.names, b);
    k := SimExpr(m, env, w, at, a, temps, bound);
    var l := EvalExpr(m.calls, env, w, a);
    if l.Value? {
      var i := SimExpr(m, l.env, l.world, at1, b, temps + [l.value], bound);
      ValueReached(m, start, k, at1, temps, l, bound);
      var r := EvalExpr(m.calls, l.env, l.world, b);
      ThenYields(m, start, k, State(at1, Frame(l.env, temps + [l.value]), l.world), i, at2, temps + [l.value], r,
          bound);
      k := FinishCall2(m, start, k + i, at2, temps, l.value, r, name, bound);
    } else {
      AbortYields(m, start, k, at1, temps, at2 + 3, temps, l, bound);
    }
  }

  // After [j] steps the receiver [v] is below the result [r] of the argument.
  lemma {:induction false} FinishCall2(
      m: Machine, start: State, j: nat, at: nat, temps: seq<Value>, v: Value, r: ExprResult, name: string, bound: nat)
    returns (k: nat)
    requires TablesFit(m.tables) && name in m.tables.methods && At(m.code, at, GenCall(m.tables, 1, name))
    requires Yields(m, start, j, at, temps + [v], r, bound)
    requires r.Value? ==> |r.env.names| + |temps| + 2 <= bound
    ensures Yields(m, start, k, at + 3, temps,
            if r.Abort? then r else EvalCall(m.calls, r.env, r.world, name, [v, r.value]), bound)
  {
    hide *;
    k := j;
    if r.Value? {
      ValueReached(m, start, j, at, temps + [v], r, bound);
      TwoPushes(temps, v, r.value);
      k := ThenCall(m, start, j, r.env, r.world, at, temps, [v, r.value], name, bound);
    } else {
      AbortYields(m, start, j, at, temps + [v], at + 3, temps, r, bound);
    }
  }

  // The short-circuit operators, and the instruction of each.
  predicate IsLogical(e: Expr, op: byte, a: Expr, b: Expr) {
    (e == And(a, b) && op == CODE_AND) || (e == Or(a, b) && op == CODE_OR)
  }

  lemma {:induction false} LogicalForm(
      m: Machine, names: seq<string>, at: nat, e: Expr, op: byte, a: Expr, b: Expr, temps: nat, bound: nat)
    requires IsLogical(e, op, a, b) && Ready(m, names, at, e, temps, bound)
    ensures a < e && Ready(m, names, at, a, temps, bound)
    ensures b < e && Ready(m, names, at + SizeExpr(names, a) + 3, b, temps, bound)
    ensures SizeExpr(names, b) < 0x1_0000 && |names| + temps < bound && op != CODE_JUMP_IF
    ensures At(m.code, at + SizeExpr(names, a), GenJump(op, SizeExpr(names, b)))
    ensures SizeExpr(names, e) == SizeExpr(names, a) + 3 + SizeExpr(names, b)
  {
    hide GenExpr, GenJump, At;
    LogicalCode(m.code, at, m.tables, names, e, op, a, b);
  }

  lemma {:induction false} LogicalEval(
      calls: Calls, env: Env, w: World, e: Expr, op: byte, a: Expr, b: Expr, l: ExprResult)
    requires IsLogical(e, op, a, b) && l == EvalExpr(calls, env, w, a)
    ensures EvalExpr(calls, env, w, e)
            == if l.Abort? || (if op == CODE_OR then !l.value.Falsy() else l.value.Falsy()) then l
               else EvalExpr(calls, l.env, l.world, b)
  {
    if op == CODE_AND {
      assert e == And(a, b);
    } else {
      assert e == Or(a, b);
    }
  }

  lemma {:induction false} LogicalCode(
      code: seq<byte>, at: nat, t: Tables, names: seq<string>, e: Expr, op: byte, a: Expr, b: Expr)
    requires IsLogical(e, op, a, b) && At(code, at, GenExpr(t, names, e))
    ensures At(code, at, GenExpr(t, names, a)) && At(code, at + SizeExpr(names, a) + 3, GenExpr(t, names, b))
    ensures At(code, at + SizeExpr(names, a), GenJump(op, SizeExpr(names, b)))
  {
    hide *;
    LogicalBytes(t, names, e, op, a, b);
    AtConcat3(code, at, GenExpr(t, names, a), GenJump(op, SizeExpr(names, b)), GenExpr(t, names, b));
  }

  lemma LogicalBytes(t: Tables, names: seq<string>, e: Expr, op: byte, a: Expr, b: Expr)
    requires IsLogical(e, op, a, b)
    ensures GenExpr(t, names, e) == GenExpr(t, names, a) + GenJump(op, SizeExpr(names, b)) + GenExpr(t, names, b)
  {
    hide GenExpr, GenJump, SizeExpr;
    AndBytes(t, names, a, b);
    OrBytes(t, names, a, b);
  }

  lemma AndBytes(t: Tables, names: seq<string>, a: Expr, b: Expr)
    ensures GenExpr(t, names, And(a, b))
            == GenExpr(t, names, a) + GenJump(CODE_AND, SizeExpr(names, b)) + GenExpr(t, names, b)
  {
  }

  lemma OrBytes(t: Tables, names: seq<string>, a: Expr, b: Expr)
    ensures GenExpr(t, names, Or(a, b))
            == GenExpr(t, names, a) + GenJump(CODE_OR, SizeExpr(names, b)) + GenExpr(t, names, b)
  {
  }

  lemma {:induction false} SimLogical(
      m: Machine, env: Env, w: World, at: nat, e: Expr, op: byte, a: Expr, b: Expr, temps: seq<Value>, bound: nat)
    returns (k: nat)
    requires IsLogical(e, op, a, b) && Ready(m, env.names, at, e, |temps|, bound)
    requires op == CODE_AND || op == CODE_OR
    ensures Yields(m, State(at, Frame(env, temps), w), k, at + SizeExpr(env.names, e), temps,
            EvalExpr(m.calls, env, w, e), bound)
    decreases e, 0
  {
    hide *;
    LogicalForm(m, env.names, at, e, op, a, b, |temps|, bound);
    LogicalEval(m.calls, env, w, e, op, a, b, EvalExpr(m.calls, env, w, a));
    var start := State(at, Frame(env, temps), w);
    var at1 := at + SizeExpr(env.names, a);
    var at2 := at1 + 3 + SizeExpr(env.names, b);
    k := SimExpr(m, env, w, at, a, temps, bound);
    var l := EvalExpr(m.calls, env, w, a);
    if l.Value? {
      ValueReached(m, start, k, at1, temps, l, bound);
      var taken := ThenBranch(m, start, k, l.env, l.world, at1, temps, op, SizeExpr(env.names, b), l.value, bound);
      k := k + 1;
      if !taken {
        var i := SimExpr(m, l.env, l.world, at1 + 3, b, temps, bound);
        ThenYields(m, start, k, State(at1 + 3, Frame(l.env, temps), l.world), i, at2, temps,
            EvalExpr(m.calls, l.env, l.world, b), bound);
        k := k + i;
      }
    } else {
      AbortYields(m, start, k, at1, temps, at2, temps, l, bound);
    }
  }

  lemma {:induction false} CondForm(
      m: Machine, env: Env, at: nat, c: Expr, y: Expr, n: Expr, temps: seq<Value>, bound: nat)
    requires Ready(m, env.names, at, Cond(c, y, n), |temps|, bound)
    ensures Ready(m, env.names, at, c, |temps|, bound) && CODE_JUMP_IF != CODE_OR
    ensures var names := env.names;
            var atY := at + SizeExpr(names, c) + 3;
            var atN := atY + SizeExpr(names, y) + 3;
            && At(m.code, at + SizeExpr(names, c), GenJump(CODE_JUMP_IF, SizeExpr(names, y) + 3))
            && At(m.code, atN - 3, GenJump(CODE_JUMP, SizeExpr(names, n)))
            && SizeExpr(names, y) + 3 < 0x1_0000 && SizeExpr(names, n) < 0x1_0000 && |env.names| + |temps| < bound
            && at + SizeExpr(names, Cond(c, y, n)) == atN + SizeExpr(names, n)
            && Ready(m, names, atY, y, |temps|, bound)
            && Ready(m, names, atN, n, |temps|, bound)
  {
    hide GenExpr, At;
    CondCode(m.code, at, m.tables, env.names, c, y, n);
  }

  lemma {:induction false} CondCode(code: seq<byte>, at: nat, t: Tables, names: seq<string>, c: Expr, y: Expr, n: Expr)
    requires At(code, at, GenExpr(t, names, Cond(c, y, n)))
    ensures var atY := at + SizeExpr(names, c) + 3;
            var atN := atY + SizeExpr(names, y) + 3;
            && At(code, at, GenExpr(t, names, c)) && At(code, atY - 3, GenJump(CODE_JUMP_IF, SizeExpr(names, y) + 3))
            && At(code, atY, GenExpr(t, names, y)) && At(code, atN - 3, GenJump(CODE_JUMP, SizeExpr(names, n)))
            && At(code, atN, GenExpr(t, names, n))
  {
    hide *;
    CondBytes(t, names, c, y, n);
    var gc, gy, gn := GenExpr(t, names, c), GenExpr(t, names, y), GenExpr(t, names, n);
    var branch, over := GenJump(CODE_JUMP_IF, |gy| + 3), GenJump(CODE_JUMP, |gn|);
    AtConcat3(code, at, gc + branch + gy, over, gn);
    AtConcat3(code, at, gc, branch, gy);
  }

  lemma CondBytes(t: Tables, names: seq<string>, c: Expr, y: Expr, n: Expr)
    ensures var gc, gy, gn := GenExpr(t, names, c), GenExpr(t, names, y), GenExpr(t, names, n);
            GenExpr(t, names, Cond(c, y, n))
            == gc + GenJump(CODE_JUMP_IF, |gy| + 3) + gy + GenJump(CODE_JUMP, |gn|) + gn
  {
    hide GenJump, SizeExpr;
  }

  lemma {:induction false} CondEval(calls: Calls, env: Env, w: World, c: Expr, y: Expr, n: Expr)
    ensures var r := EvalExpr(calls, env, w, c);
            && (r.Abort? ==> EvalExpr(calls, env, w, Cond(c, y, n)) == r)
            && (r.Value? ==>
                   EvalExpr(calls, env, w, Cond(c, y, n))
                       == EvalExpr(calls, r.env, r.world, if r.value.Falsy() then n else y))
  {
  }

  lemma {:induction false} SimCond(
      m: Machine, env: Env, w: World, at: nat, c: Expr, y: Expr, n: Expr, temps: seq<Value>, bound: nat)
    returns (k: nat)
    requires Ready(m, env.names, at, Cond(c, y, n), |temps|, bound)
    ensures Yields(m, State(at, Frame(env, temps), w), k, at + SizeExpr(env.names, Cond(c, y, n)), temps,
                   EvalExpr(m.calls, env, w, Cond(c, y, n)), bound)
    decreases Cond(c, y, n), 0
  {
    hide *;
    CondForm(m, env, at, c, y, n, temps, bound);
    CondEval(m.calls, env, w, c, y, n);
    var start := State(at, Frame(env, temps), w);
    var at1 := at + SizeExpr(env.names, c);
    var sizeY, sizeN := SizeExpr(env.names, y), SizeExpr(env.names, n);
    k := SimExpr(m, env, w, at, c, temps, bound);
    var r := EvalExpr(m.calls, env, w, c);
    if r.Value? {
      ValueReached(m, start, k, at1, temps, r, bound);
      var taken := ThenBranch(m, start, k, r.env, r.world, at1, temps, CODE_JUMP_IF, sizeY + 3, r.value, bound);
      k := k + 1;
      if taken {
        var i := SimExpr(m, r.env, r.world, at1 + 3 + sizeY + 3, n, temps, bound);
        ThenYields(m, start, k, State(at1 + 3 + sizeY + 3, Frame(r.env, temps), r.world), i,
            at1 + 3 + sizeY + 3 + sizeN, temps,
                   EvalExpr(m.calls, r.env, r.world, n), bound);
        k := k + i;
      } else {
        var i := SimExpr(m, r.env, r.world, at1 + 3, y, temps, bound);
        var v := EvalExpr(m.calls, r.env, r.world, y);
            ThenYields(m, start, k, State(at1 + 3, Frame(r.env, temps), r.world), i, at1 + 3 + sizeY, temps, v, bound);
        k := ThenJump(m, start, k + i, at1 + 3 + sizeY, temps, v, sizeN, bound);
      }
    } else {
      AbortYields(m, start, k, at1, temps, at + SizeExpr(env.names, Cond(c, y, n)), temps, r, bound);
    }
  }
}
