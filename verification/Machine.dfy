/** The bytecode interpreter for one call frame whose slots start at zero. */
module Interpreter {
  import opened Syntax
  import opened Semantics
  import opened Bytes
  import opened Bytecode
  import opened CodeGen

  datatype Machine = Machine(code: seq<byte>, tables: Tables, calls: Calls)

  datatype State = State(ip: nat, stack: seq<Value>, world: World)

  // What one instruction does: go on, return from the frame, or abort the fiber.
  // Stuck is an access outside the code, the stack or a table.
  datatype Effect = Next(state: State) | Finished(value: Value, world: World) | Crashed(world: World) | Stuck

  function Push(ip: nat, s: State, v: Value): Effect {
    Next(State(ip, s.stack + [v], s.world))
  }

  function StepByte(m: Machine, s: State, op: byte, arg: byte): Effect {
    var ip := s.ip + 2;
    if op == CODE_LOAD_LOCAL then
      if arg < |s.stack| then Push(ip, s, s.stack[arg]) else Stuck
    else if op == CODE_STORE_LOCAL then
      if s.stack != [] && arg < |s.stack| then Next(State(ip, s.stack[arg := s.stack[|s.stack| - 1]], s.world))
          else Stuck
    else Stuck
  }

  function StepShort(m: Machine, s: State, op: byte, arg: nat): Effect {
    var ip := s.ip + 3;
    var n := |s.stack|;
    if op == CODE_CONSTANT then
      if arg < |m.tables.consts| then Push(ip, s, m.tables.consts[arg]) else Stuck
    else if op == CODE_LOAD_MODULE_VAR then
      if arg < |m.tables.globals| then Push(ip, s, Global(s.world, m.tables.globals[arg])) else Stuck
    else if op == CODE_STORE_MODULE_VAR then
      if n > 0 && arg < |m.tables.globals| then
        Next(State(ip, s.stack, s.world.(globals := s.world.globals[m.tables.globals[arg] := s.stack[n - 1]])))
      else Stuck
    else if CODE_CALL_0 <= op <= CODE_CALL_16 then
      StepCall(m, s, op - CODE_CALL_0 + 1, arg)
    else if op == CODE_JUMP then
      Next(State(ip + arg, s.stack, s.world))
    else if op == CODE_LOOP then
      if arg <= ip then Next(State(ip - arg, s.stack, s.world)) else Stuck
    else if op == CODE_JUMP_IF then
      if n == 0 then Stuck
      else Next(State(if s.stack[n - 1].Falsy() then ip + arg else ip, s.stack[..n - 1], s.world))
    else if op == CODE_AND then
      if n == 0 then Stuck
      else if s.stack[n - 1].Falsy() then Next(State(ip + arg, s.stack, s.world))
      else Next(State(ip, s.stack[..n - 1], s.world))
    else if op == CODE_OR then
      if n == 0 then Stuck
      else if s.stack[n - 1].Falsy() then Next(State(ip, s.stack[..n - 1], s.world))
      else Next(State(ip + arg, s.stack, s.world))
    else Stuck
  }

  // Calls the method with the given symbol on the top [numArgs] values, the
  // receiver included, and replaces them by the result.
  function StepCall(m: Machine, s: State, numArgs: nat, symbol: nat): Effect {
    var n := |s.stack|;
    if numArgs > n || symbol >= |m.tables.methods| then Stuck
    else
      match m.calls(s.world, m.tables.methods[symbol], s.stack[n - numArgs..])
      case Returned(v, w) => Next(State(s.ip + 3, s.stack[..n - numArgs] + [v], w))
      case Raised(w) => Crashed(w)
  }

  function Step(m: Machine, s: State): Effect {
    if s.ip >= |m.code| then Stuck
    else
      var op := m.code[s.ip];
      var n := |s.stack|;
      if op == CODE_NULL then Push(s.ip + 1, s, Null)
      else if op == CODE_FALSE then Push(s.ip + 1, s, False)
      else if op == CODE_TRUE then Push(s.ip + 1, s, True)
      else if CODE_LOAD_LOCAL_0 <= op <= CODE_LOAD_LOCAL_8 then
        if op - CODE_LOAD_LOCAL_0 < n then Push(s.ip + 1, s, s.stack[op - CODE_LOAD_LOCAL_0]) else Stuck
      else if op == CODE_POP then
        if n > 0 then Next(State(s.ip + 1, s.stack[..n - 1], s.world)) else Stuck
      else if op == CODE_RETURN then
        if n > 0 then Finished(s.stack[n - 1], s.world) else Stuck
      else if FixedOperands(op) == 1 && s.ip + 2 <= |m.code| then StepByte(m, s, op, m.code[s.ip + 1])
      else if FixedOperands(op) == 2 && s.ip + 3 <= |m.code| then StepShort(m, s, op, ReadShort(m.code, s.ip + 1))
      else Stuck
  }

  // ----- Runs -----

  // [s] reaches [s'] in [k] steps, and no state on the way has more than [bound]
  // values on the stack.
  ghost predicate Reach(m: Machine, s: State, k: nat, s': State, bound: nat)
    decreases k
  {
    match Step(m, s)
    case Next(t) => |s.stack| <= bound && if k == 0 then s == s' else Reach(m, t, k - 1, s', bound)
    case _ => |s.stack| <= bound && k == 0 && s == s'
  }

  // After [k] steps, within [bound], the run ends with [end].
  ghost predicate Ends(m: Machine, s: State, k: nat, end: Effect, bound: nat)
    decreases k
  {
    match Step(m, s)
    case Next(t) => |s.stack| <= bound && if k == 0 then end == Next(t) else Ends(m, t, k - 1, end, bound)
    case last => |s.stack| <= bound && k == 0 && end == last
  }

  // [k] steps can be taken within [bound].
  ghost predicate Runs(m: Machine, s: State, k: nat, bound: nat)
    decreases k
  {
    match Step(m, s)
    case Next(t) => |s.stack| <= bound && (k > 0 ==> Runs(m, t, k - 1, bound))
    case _ => |s.stack| <= bound && k == 0
  }

  lemma {:induction false} ReachTrans(m: Machine, s: State, j: nat, s1: State, k: nat, s2: State, bound: nat)
    requires Reach(m, s, j, s1, bound) && Reach(m, s1, k, s2, bound)
    ensures Reach(m, s, j + k, s2, bound)
    decreases j
  {
    if j > 0 { ReachTrans(m, Step(m, s).state, j - 1, s1, k, s2, bound); }
  }

  lemma {:induction false} ReachEnds(m: Machine, s: State, j: nat, s1: State, k: nat, end: Effect, bound: nat)
    requires Reach(m, s, j, s1, bound) && Ends(m, s1, k, end, bound)
    ensures Ends(m, s, j + k, end, bound)
    decreases j
  {
    if j > 0 { ReachEnds(m, Step(m, s).state, j - 1, s1, k, end, bound); }
  }

  lemma {:induction false} ReachRuns(m: Machine, s: State, j: nat, s1: State, k: nat, bound: nat)
    requires Reach(m, s, j, s1, bound) && Runs(m, s1, k, bound)
    ensures Runs(m, s, j + k, bound)
    decreases j
  {
    if j > 0 { ReachRuns(m, Step(m, s).state, j - 1, s1, k, bound); }
  }

  // A run has one end: the machine is deterministic.
  lemma {:induction false} EndsOnce(
      m: Machine, s: State, j: nat, a: Effect, k: nat, b: Effect, boundA: nat, boundB: nat)
    requires Ends(m, s, j, a, boundA) && Ends(m, s, k, b, boundB) && !a.Next? && !b.Next?
    ensures j == k && a == b
    decreases j
  {
    if j > 0 && k > 0 { EndsOnce(m, Step(m, s).state, j - 1, a, k - 1, b, boundA, boundB); }
  }

  lemma {:induction false} EndsBeforeRuns(m: Machine, s: State, j: nat, end: Effect, k: nat, boundA: nat, boundB: nat)
    requires Ends(m, s, j, end, boundA) && !end.Next? && Runs(m, s, k, boundB)
    ensures k <= j
    decreases j
  {
    if j > 0 && k > 0 { EndsBeforeRuns(m, Step(m, s).state, j - 1, end, k - 1, boundA, boundB); }
  }

  // ----- Code at an offset -----

  predicate At(code: seq<byte>, at: nat, part: seq<byte>) {
    var here := at + |part| <= |code| && code[at..at + |part|] == part;
    here
  }

  lemma AtConcat(code: seq<byte>, at: nat, a: seq<byte>, b: seq<byte>)
    requires At(code, at, a + b)
    ensures At(code, at, a) && At(code, at + |a|, b)
  {
    assert code[at..at + |a|] == code[at..at + |a + b|][..|a|];
    assert code[at + |a|..at + |a| + |b|] == code[at..at + |a + b|][|a|..];
  }

  lemma AtConcat3(code: seq<byte>, at: nat, a: seq<byte>, b: seq<byte>, c: seq<byte>)
    requires At(code, at, a + b + c)
    ensures At(code, at, a + b) && At(code, at, a) && At(code, at + |a|, b) && At(code, at + |a| + |b|, c)
  {
    hide At;
    AtConcat(code, at, a + b, c);
    AtConcat(code, at, a, b);
  }

  lemma AtByte(code: seq<byte>, at: nat, part: seq<byte>, i: nat)
    requires At(code, at, part) && i < |part|
    ensures code[at + i] == part[i]
  {
    assert code[at..at + |part|][i] == part[i];
  }
}
