/** Running the code of a method, with the functions nested in it, on instances that have
    the inherited fields first. What instructions other than jumps, field accesses, calls
    and closures do, and what other code does, is given by an environment. */
module MethodMachine {
  import opened Bytes
  import opened Bytecode
  import opened Binding
  import opened Options

  // A closure is known by the constants that lead to its function from the method.
  datatype Val = Plain(id: nat) | Instance(id: nat) | Closure(path: seq<nat>, upvalues: seq<nat>)

  type Heap = map<nat, seq<Val>>

  const NULL := Plain(0)
  const FALSE := Plain(1)

  // [resume] says how the code that called the function goes on.
  datatype Frame = Frame(path: seq<nat>, ip: nat, start: nat, resume: nat)

  datatype State = State(frames: seq<Frame>, stack: seq<Val>, heap: Heap, world: nat)

  datatype Effect = Next(state: State) | Finished(value: Val, heap: Heap, world: nat) | Crashed(heap: Heap,
      world: nat) | Stuck

  // Code that is not part of the method returns a value, calls a closure, or aborts.
  datatype Reaction =
    | Return(value: Val, heap: Heap, world: nat)
    | Invoke(path: seq<nat>, args: seq<Val>, resume: nat, heap: Heap, world: nat)
    | Abort(heap: Heap, world: nat)

  // [call] starts a method of a class, or of the receiver's class when it is None, and
  // [resume] goes on after a closure returns. [capture] finds the upvalues of a new
  // closure, [close] closes those of a frame, and [other] executes any other instruction.
  datatype Env = Env(
    call: (Option<nat>, nat, seq<Val>, Heap, nat) -> Reaction,
    resume: (nat, Val, Heap, nat) -> Reaction,
    capture: (seq<byte>, seq<Val>, nat, nat) -> (seq<nat>, nat),
    close: (seq<Val>, nat, nat) -> nat,
    other: (seq<byte>, seq<Val>, nat, Heap, nat) -> Option<(seq<Val>, Heap, nat)>)

  // Code that is not bound sees only the fields of its own class, which follow
  // [inherited] others, and its superclass. Bound code sees all fields, and finds the
  // superclass in its constants.
  datatype View = OwnFields(inherited: nat, superclass: nat) | AllFields

  function LoadField(view: View, fields: seq<Val>, i: nat): Option<Val> {
    match view
    case OwnFields(k, _) => if k + i < |fields| then var own := fields[k..]; Some(own[i]) else None
    case AllFields => if i < |fields| then Some(fields[i]) else None
  }

  function StoreField(view: View, fields: seq<Val>, i: nat, v: Val): Option<seq<Val>> {
    match view
    case OwnFields(k, _) => if k + i < |fields| then var own := fields[k..]; Some(fields[..k] + own[i := v]) else None
    case AllFields => if i < |fields| then Some(fields[i := v]) else None
  }

  ghost function Superclass(view: View, f: Func, c: nat): Option<nat> {
    match view
    case OwnFields(_, superclass) => Some(superclass)
    case AllFields => if c < |f.constants| && f.constants[c].ClassConst? then Some(f.constants[c].cls) else None
  }

  // The function that [path] leads to.
  ghost function Lookup(f: Func, path: seq<nat>): Option<Func>
    decreases |path|
  {
    if path == [] then Some(f)
    else if path[0] < |f.constants| && f.constants[path[0]].FnConst? then Lookup(f.constants[path[0]].fn, path[1..])
    else None
  }

  // The state after the current instruction of length [n], with a new stack.
  ghost function Advance(s: State, n: nat, stack: seq<Val>): Effect
    requires s.frames != []
  {
    var fr := s.frames[|s.frames| - 1];
    Next(s.(frames := s.frames[..|s.frames| - 1] + [fr.(ip := fr.ip + n)], stack := stack))
  }

  ghost function StepLoad(view: View, s: State, receiver: Val, i: nat, stack: seq<Val>): Effect
    requires s.frames != []
  {
    if receiver.Instance? && receiver.id in s.heap then
      match LoadField(view, s.heap[receiver.id], i)
      case Some(v) => Advance(s, 2, stack + [v])
      case None => Stuck
    else Stuck
  }

  ghost function StepStore(view: View, s: State, receiver: Val, i: nat, v: Val, stack: seq<Val>): Effect
    requires s.frames != []
  {
    if receiver.Instance? && receiver.id in s.heap then
      match StoreField(view, s.heap[receiver.id], i, v)
      case Some(fields) => Advance(s.(heap := s.heap[receiver.id := fields]), 2, stack)
      case None => Stuck
    else Stuck
  }

  ghost function StepField(view: View, s: State, op: byte, i: nat): Effect
    requires s.frames != []
  {
    var start, n := s.frames[|s.frames| - 1].start, |s.stack|;
    if op == CODE_LOAD_FIELD_THIS then
      if start < n then StepLoad(view, s, s.stack[start], i, s.stack) else Stuck
    else if op == CODE_STORE_FIELD_THIS then
      if start < n then StepStore(view, s, s.stack[start], i, s.stack[n - 1], s.stack) else Stuck
    else if op == CODE_LOAD_FIELD then
      if n > 0 then StepLoad(view, s, s.stack[n - 1], i, s.stack[..n - 1]) else Stuck
    else
      if n > 1 then StepStore(view, s, s.stack[n - 1], i, s.stack[n - 2], s.stack[..n - 1]) else Stuck
  }

  // What follows a call, or a return to the code that called a closure.
  ghost function React(frames: seq<Frame>, stack: seq<Val>, r: Reaction): Effect {
    match r
    case Return(v, heap, world) => Next(State(frames, stack + [v], heap, world))
    case Invoke(path, args, resume, heap, world) =>
      Next(State(frames + [Frame(path, 0, |stack|, resume)], stack + args, heap, world))
    case Abort(heap, world) => Crashed(heap, world)
  }

  ghost function StepCall(env: Env, s: State, n: nat, cls: Option<nat>, symbol: nat, numArgs: nat): Effect
    requires s.frames != []
  {
    if numArgs > |s.stack| then Stuck
    else
      var args := s.stack[|s.stack| - numArgs..];
      React(Advance(s, n, []).state.frames, s.stack[..|s.stack| - numArgs],
          env.call(cls, symbol, args, s.heap, s.world))
  }

  ghost function StepReturn(env: Env, s: State): Effect
    requires s.frames != []
  {
    var fr, n := s.frames[|s.frames| - 1], |s.stack|;
    if n == 0 || fr.start > n - 1 then Stuck
    else
      var result, world := s.stack[n - 1], env.close(s.stack[..n - 1], fr.start, s.world);
      if |s.frames| == 1 then Finished(result, s.heap, world)
      else React(s.frames[..|s.frames| - 1], s.stack[..fr.start], env.resume(fr.resume, result, s.heap, world))
  }

  function Falsy(v: Val): bool {
    v == NULL || v == FALSE
  }

  // Where a jump instruction goes on, and with which stack.
  ghost function StepJump(s: State, op: byte, distance: nat): Effect
    requires s.frames != []
  {
    var fr, n := s.frames[|s.frames| - 1], |s.stack|;
    if op == CODE_JUMP then Advance(s, 3 + distance, s.stack)
    else if op == CODE_LOOP then
      if distance <= fr.ip + 3 then
        Next(s.(frames := s.frames[..|s.frames| - 1] + [fr.(ip := fr.ip + 3 - distance)]))
      else Stuck
    else if n == 0 then Stuck
    else
      var falsy := Falsy(s.stack[n - 1]);
      if op == CODE_JUMP_IF then Advance(s, if falsy then 3 + distance else 3, s.stack[..n - 1])
      else if (op == CODE_AND) == falsy then Advance(s, 3 + distance, s.stack)
      else Advance(s, 3, s.stack[..n - 1])
  }

  ghost function StepOther(env: Env, s: State, instruction: seq<byte>): Effect
    requires s.frames != []
  {
    match env.other(instruction, s.stack, s.frames[|s.frames| - 1].start, s.heap, s.world)
    case Some((stack, heap, world)) => Advance(s.(heap := heap, world := world), |instruction|, stack)
    case None => Stuck
  }

  ghost function StepConstant(s: State, f: Func, c: nat): Effect
    requires s.frames != []
  {
    if c < |f.constants| && f.constants[c].Value? then Advance(s, 3, s.stack + [Plain(f.constants[c].id)]) else Stuck
  }

  ghost function StepClosure(env: Env, s: State, f: Func, instruction: seq<byte>): Effect
    requires s.frames != [] && |instruction| >= 3
  {
    var fr, c := s.frames[|s.frames| - 1], ReadShort(instruction, 1);
    if c < |f.constants| && f.constants[c].FnConst? then
      var (upvalues, world) := env.capture(instruction[3..], s.stack, fr.start, s.world);
      Advance(s.(world := world), |instruction|, s.stack + [Closure(fr.path + [c], upvalues)])
    else Stuck
  }

  // A class definition binds methods again when it is executed, so a run stops there.
  predicate DefinesClass(op: byte) {
    op == CODE_CLASS || op == CODE_FOREIGN_CLASS || op == CODE_END_CLASS || op == CODE_METHOD_INSTANCE
        || op == CODE_METHOD_STATIC
  }

  // How many bytes the dispatch loop reads of the instruction at the start of [rest],
  // opcode included.
  function BytesRead(rest: seq<byte>, constants: seq<Const>): (n: nat)
    requires rest != []
    ensures n > 0
  {
    var op: int := rest[0];
    if op == 0 then 3
    else if op <= 12 then 1
    else if op <= 16 then 2
    else if op <= 18 then 3
    else if op <= 22 then 2
    else if op == 23 then 1
    else if op <= 40 then 3
    else if op <= 57 then 5
    else if op <= 62 then 3
    else if op <= 64 then 1
    else if op == 65 then 3 + 2 * UpvaluesAt(rest, constants)
    else if op <= 67 then 1
    else if op == 68 then 2
    else if op <= 70 then 1
    else if op <= 72 then 3
    else if op == 73 then 1
    else if op <= 75 then 3
    else 1
  }

  // How many upvalues the function has that a closure instruction names.
  function UpvaluesAt(rest: seq<byte>, constants: seq<Const>): nat {
    if |rest| < 3 then 0
    else
      var c := 256 * (rest[1] as int) + rest[2];
      if c < |constants| && constants[c].FnConst? then constants[c].fn.numUpvalues else 0
  }

  // The walks over code take an instruction to be as long as what is read of it.
  lemma WalkReads(rest: seq<byte>, constants: seq<Const>)
    requires rest != []
    ensures BytesRead(rest, constants) == InstructionLength(rest, Upvalues(constants))
  {
    if rest[0] == CODE_CLOSURE {
      assert |rest| >= 3 ==> ReadShort(rest, 1) == 256 * (rest[1] as int) + rest[2];
    } else {
      WalkReadsFixed(rest[0]);
    }
  }

  lemma WalkReadsFixed(op: byte)
    requires op != CODE_CLOSURE
    ensures BytesRead([op], []) == 1 + FixedOperands(op)
  {
  }

  // Executes one instruction of [f], whose bytes are [instruction].
  ghost function Execute(view: View, env: Env, s: State, f: Func, instruction: seq<byte>): Effect
    requires s.frames != [] && instruction != []
             && BytesRead(instruction, f.constants) == |instruction|
  {
    var op := instruction[0];
    if IsField(op) then StepField(view, s, op, instruction[1])
    else if IsSuper(op) then
      match Superclass(view, f, ReadShort(instruction, 3))
      case Some(cls) => StepCall(env, s, 5, Some(cls), ReadShort(instruction, 1), op - CODE_SUPER_0 + 1)
      case None => Stuck
    else if CODE_CALL_0 <= op <= CODE_CALL_16
        then StepCall(env, s, 3, None, ReadShort(instruction, 1), op - CODE_CALL_0 + 1)
    else if IsJump(op) then StepJump(s, op, ReadShort(instruction, 1))
    else if op == CODE_CONSTANT then StepConstant(s, f, ReadShort(instruction, 1))
    else if op == CODE_CLOSURE then StepClosure(env, s, f, instruction)
    else if op == CODE_RETURN then StepReturn(env, s)
    else if op == CODE_END || DefinesClass(op) then Stuck
    else StepOther(env, s, instruction)
  }

  // Executes the first instruction of [rest], the rest of the code of [f].
  ghost function ExecuteFirst(view: View, env: Env, s: State, f: Func, rest: seq<byte>): Effect
    requires s.frames != []
  {
    if rest == [] then Stuck
    else
      var n := BytesRead(rest, f.constants);
      if n > |rest| then Stuck
      else
        FetchRead(rest, n, f.constants);
        Execute(view, env, s, f, rest[..n])
  }

  ghost function Step(view: View, env: Env, root: Func, s: State): Effect {
    if s.frames == [] then Stuck
    else
      var fr := s.frames[|s.frames| - 1];
      match Lookup(root, fr.path)
      case None => Stuck
      case Some(f) => if fr.ip > |f.code| then Stuck else ExecuteFirst(view, env, s, f, f.code[fr.ip..])
  }

  lemma FetchRead(rest: seq<byte>, n: nat, constants: seq<Const>)
    requires rest != [] && n == BytesRead(rest, constants) <= |rest|
    ensures BytesRead(rest[..n], constants) == n
  {
  }

  // The whole instruction has the length of its own bytes.
  lemma Fetch(rest: seq<byte>, n: nat, upvalues: seq<nat>)
    requires rest != [] && n == InstructionLength(rest, upvalues) <= |rest|
    ensures InstructionLength(rest[..n], upvalues) == n
  {
  }

  ghost function Run(view: View, env: Env, root: Func, s: State, n: nat): Effect
    decreases n
  {
    if n == 0 then Next(s)
    else
      match Step(view, env, root, s)
      case Next(t) => Run(view, env, root, t, n - 1)
      case last => last
  }

  // ----- What single instructions do, by their numbers -----

  // But for jumps and returns, the frame goes on where the walks over the code take the
  // next instruction to start.
  lemma Advances(view: View, env: Env, s: State, f: Func, rest: seq<byte>)
    requires s.frames != [] && rest != [] && !(58 <= rest[0] <= 62) && rest[0] != 64
    requires ExecuteFirst(view, env, s, f, rest).Next?
    ensures var t, m := ExecuteFirst(view, env, s, f, rest).state, |s.frames| - 1;
            && |t.frames| > m && t.frames[..m] == s.frames[..m] && t.frames[m].path == s.frames[m].path
            && t.frames[m].ip == s.frames[m].ip + InstructionLength(rest, Upvalues(f.constants))
            && (rest[0] == 15 || rest[0] == 16 ==> t.frames[m].ip == s.frames[m].ip + 2)
            && (rest[0] == 23 || rest[0] == 63 || 1 <= rest[0] <= 12 ==>
                  t.frames[m].ip == s.frames[m].ip + 1)
  {
    hide LoadField, StoreField, Superclass, InstructionLength, Upvalues, UpvaluesAt;
    WalkReads(rest, f.constants);
    var n := BytesRead(rest, f.constants);
    FetchRead(rest, n, f.constants);
    assert rest[..n][0] == rest[0];
  }

  // A field instruction of code that is not bound accesses a field of the class itself,
  // after the inherited ones: the numbers 19 and 20 that of the receiver, 21 and 22 that
  // of the instance on top of the stack.
  lemma FieldSteps(env: Env, s: State, f: Func, i: byte, k: nat, sup: nat, id: nat)
    requires s.frames != [] && id in s.heap && k + i < |s.heap[id]|
    ensures var fr, n := s.frames[|s.frames| - 1], |s.stack|;
            var frames := s.frames[..|s.frames| - 1] + [fr.(ip := fr.ip + 2)];
            var view, fields := OwnFields(k, sup), s.heap[id];
            && (fr.start < n && s.stack[fr.start] == Instance(id) ==>
                  && Execute(view, env, s, f, [19, i])
                     == Next(State(frames, s.stack + [fields[k + i]], s.heap, s.world))
                  && Execute(view, env, s, f, [20, i])
                     == Next(State(frames, s.stack, s.heap[id := fields[k + i := s.stack[n - 1]]], s.world)))
            && (n > 0 && s.stack[n - 1] == Instance(id) ==>
                  Execute(view, env, s, f, [21, i])
                  == Next(State(frames, s.stack[..n - 1] + [fields[k + i]], s.heap, s.world)))
            && (n > 1 && s.stack[n - 1] == Instance(id) ==>
                  Execute(view, env, s, f, [22, i])
                  == Next(State(frames, s.stack[..n - 1], s.heap[id := fields[k + i := s.stack[n - 2]]], s.world)))
  {
    var fields, n := s.heap[id], |s.stack|;
    if n > 0 { OwnUpdate(fields, k, i, s.stack[n - 1]); }
    if n > 1 { OwnUpdate(fields, k, i, s.stack[n - 2]); }
  }

  lemma OwnUpdate(fields: seq<Val>, k: nat, i: nat, v: Val)
    requires k + i < |fields|
    ensures fields[..k] + fields[k..][i := v] == fields[k + i := v]
  {
  }

  // A super call, 41 for no argument and 57 for 16, calls the method of the superclass of
  // the class.
  lemma SuperSteps(env: Env, s: State, f: Func, op: byte, a: byte, b: byte, c: byte, d: byte, k: nat, sup: nat)
    requires s.frames != [] && 41 <= op <= 57
    ensures var fr, numArgs := s.frames[|s.frames| - 1], op - 40;
            var frames := s.frames[..|s.frames| - 1] + [fr.(ip := fr.ip + 5)];
            Execute(OwnFields(k, sup), env, s, f, [op, a, b, c, d])
            == if numArgs > |s.stack| then Stuck
               else
                 var below := |s.stack| - numArgs;
                 React(frames, s.stack[..below],
                       env.call(Some(sup), 256 * (a as int) + b, s.stack[below..], s.heap, s.world))
  {
  }

  // A call, 24 for no argument and 40 for 16, calls the method of the receiver.
  lemma CallSteps(view: View, env: Env, s: State, f: Func, op: byte, a: byte, b: byte)
    requires s.frames != [] && 24 <= op <= 40
    ensures var fr, numArgs := s.frames[|s.frames| - 1], op - 23;
            var frames := s.frames[..|s.frames| - 1] + [fr.(ip := fr.ip + 3)];
            Execute(view, env, s, f, [op, a, b])
            == if numArgs > |s.stack| then Stuck
               else
                 var below := |s.stack| - numArgs;
                 React(frames, s.stack[..below],
                     env.call(None, 256 * (a as int) + b, s.stack[below..], s.heap, s.world))
  {
  }

  // 58 jumps forward and 59 back. 64 takes the result from the top of the stack, and the
  // frame from below it.
  lemma JumpSteps(view: View, env: Env, s: State, f: Func, hi: byte, lo: byte)
    requires s.frames != []
    ensures var m := |s.frames| - 1;
            var fr, n, d := s.frames[m], |s.stack|, 256 * (hi as int) + lo;
            && Execute(view, env, s, f, [58, hi, lo])
               == Next(s.(frames := s.frames[..m] + [fr.(ip := fr.ip + 3 + d)]))
            && Execute(view, env, s, f, [59, hi, lo])
               == (if d <= fr.ip + 3 then Next(s.(frames := s.frames[..m] + [fr.(ip := fr.ip + 3 - d)])) else Stuck)
            && Execute(view, env, s, f, [64])
               == (if n == 0 || fr.start > n - 1 then Stuck
                   else
                     var world := env.close(s.stack[..n - 1], fr.start, s.world);
                     if m == 0 then Finished(s.stack[n - 1], s.heap, world)
                     else
                       React(s.frames[..m], s.stack[..fr.start], env.resume(fr.resume, s.stack[n - 1], s.heap, world)))
  {
  }

  // 0 pushes a constant, and 65 a closure of a nested function.
  lemma ConstantSteps(view: View, env: Env, s: State, f: Func, a: byte, b: byte, captures: seq<byte>)
    requires s.frames != []
    ensures var m, c := |s.frames| - 1, 256 * (a as int) + b;
            var fr := s.frames[m];
            && (c < |f.constants| && f.constants[c].Value? ==>
                  Execute(view, env, s, f, [0, a, b])
                  == Next(State(s.frames[..m] + [fr.(ip := fr.ip + 3)], s.stack + [Plain(f.constants[c].id)], s.heap,
                                s.world)))
            && (c < |f.constants| && f.constants[c].FnConst? && |captures| == 2 * f.constants[c].fn.numUpvalues ==>
                  var caught := env.capture(captures, s.stack, fr.start, s.world);
                  Execute(view, env, s, f, [65, a, b] + captures)
                  == Next(State(s.frames[..m] + [fr.(ip := fr.ip + 3 + |captures|)],
                                s.stack + [Closure(fr.path + [c], caught.0)], s.heap, caught.1)))
  {
    var ins := [65, a, b] + captures;
    assert ins[0] == 65 && ins[1] == a && ins[2] == b && ins[3..] == captures;
  }

  // A branch takes null and false alone for false: 60 pops the condition, 61 and 62 keep
  // it where they jump.
  lemma BranchSteps(view: View, env: Env, s: State, f: Func, hi: byte, lo: byte)
    requires s.frames != [] && s.stack != []
    ensures var fr, top := s.frames[|s.frames| - 1], s.stack[|s.stack| - 1];
            var no, far, rest := top == NULL || top == FALSE, 3 + 256 * (hi as int) + lo, s.stack[..|s.stack| - 1];
            && Execute(view, env, s, f, [60, hi, lo]) == Advance(s, if no then far else 3, rest)
            && Execute(view, env, s, f, [61, hi, lo]) == (if no then Advance(s, far, s.stack) else Advance(s, 3, rest))
            && Execute(view, env, s, f, [62, hi, lo]) == (if no then Advance(s, 3, rest) else Advance(s, far, s.stack))
  {
  }

  // ----- Bound code does what the code did on the class's own fields -----

  // A shifted operand finds the same field, if no operand overflows.
  lemma SameField(fields: seq<Val>, own: nat, k: nat, sup: nat, i: byte, v: Val)
    requires i < own && own + k < 256
    ensures LoadField(AllFields, fields, (i + k) % 256) == LoadField(OwnFields(k, sup), fields, i)
    ensures StoreField(AllFields, fields, (i + k) % 256, v) == StoreField(OwnFields(k, sup), fields, i, v)
  {
    var j := (i + k) % 256;
    assert j == k + i;
    if j < |fields| {
      var own := fields[k..];
      assert fields[j := v] == fields[..k] + own[i := v];
      assert StoreField(AllFields, fields, j, v) == Some(fields[j := v]);
      assert StoreField(OwnFields(k, sup), fields, i, v) == Some(fields[..k] + own[i := v]);
    }
  }

  lemma SameLoad(s: State, receiver: Val, own: nat, k: nat, sup: nat, i: byte, stack: seq<Val>)
    requires s.frames != [] && i < own && own + k < 256
    ensures StepLoad(AllFields, s, receiver, (i + k) % 256, stack) == StepLoad(OwnFields(k, sup), s, receiver, i, stack)
  {
    hide LoadField, StoreField, Advance;
    if receiver.Instance? && receiver.id in s.heap { SameField(s.heap[receiver.id], own, k, sup, i, NULL); }
  }

  lemma SameStore(s: State, receiver: Val, own: nat, k: nat, sup: nat, i: byte, v: Val, stack: seq<Val>)
    requires s.frames != [] && i < own && own + k < 256
    ensures StepStore(AllFields, s, receiver, (i + k) % 256, v, stack)
            == StepStore(OwnFields(k, sup), s, receiver, i, v, stack)
  {
    hide LoadField, StoreField, Advance;
    if receiver.Instance? && receiver.id in s.heap { SameField(s.heap[receiver.id], own, k, sup, i, v); }
  }

  lemma SameFieldStep(s: State, op: byte, own: nat, k: nat, sup: nat, i: byte)
    requires s.frames != [] && i < own && own + k < 256
    ensures StepField(AllFields, s, op, (i + k) % 256) == StepField(OwnFields(k, sup), s, op, i)
  {
    hide StepLoad, StepStore;
    var start, n := s.frames[|s.frames| - 1].start, |s.stack|;
    if start < n {
      SameLoad(s, s.stack[start], own, k, sup, i, s.stack);
      SameStore(s, s.stack[start], own, k, sup, i, s.stack[n - 1], s.stack);
    }
    if n > 0 { SameLoad(s, s.stack[n - 1], own, k, sup, i, s.stack[..n - 1]); }
    if n > 1 { SameStore(s, s.stack[n - 1], own, k, sup, i, s.stack[n - 2], s.stack[..n - 1]); }
  }

  lemma {:induction false} LookupBound(f: Func, own: nat, k: nat, sup: nat, path: seq<nat>)
    requires WellFormed(f, own)
    ensures Lookup(f, path).None? ==> Lookup(Bind(f, own, k, sup), path).None?
    ensures Lookup(f, path).Some? ==>
              WellFormed(Lookup(f, path).value, own)
                  && Lookup(Bind(f, own, k, sup), path) == Some(Bind(Lookup(f, path).value, own, k, sup))
    decreases |path|
  {
    hide IsBody, JumpsOk, Closures, Supers;
    if path != [] && path[0] < |f.constants| {
      assert Bind(f, own, k, sup).constants[path[0]] == BindConst(f, own, k, sup, path[0]);
      if f.constants[path[0]].FnConst? { LookupBound(f.constants[path[0]].fn, own, k, sup, path[1..]); }
    }
  }

  // Binding the first instruction does not change what it does.
  lemma SameFirst(env: Env, s: State, f: Func, own: nat, k: nat, sup: nat, rest: seq<byte>)
    requires WellFormed(f, own) && own + k < 256 && s.frames != []
    requires IsBody(rest, Upvalues(f.constants), own)
    requires forall c :: c in Supers(rest, Upvalues(f.constants), own) ==>
               c in Supers(f.code, Upvalues(f.constants), own)
    ensures ExecuteFirst(AllFields, env, s, Bind(f, own, k, sup), BindCode(rest, Upvalues(f.constants), own, k))
         == ExecuteFirst(OwnFields(k, sup), env, s, f, rest)
  {
    SameUpvalues(f, own, k, sup);
    var u, b := Upvalues(f.constants), Bind(f, own, k, sup);
    var n, bound := InstructionLength(rest, u), BindCode(rest, u, own, k);
    BindInstruction(rest, u, own, k);
    Fetch(rest, n, u);
    Fetch(bound, n, u);
    if IsField(rest[0]) {
      ShiftedFirst(env, s, f, b, own, k, sup, rest[..n], bound[..n]);
    } else {
      SameConstants(env, s, f, own, k, sup, rest[..n], rest);
    }
    hide *;
    hide Execute;
    FirstForm(AllFields, env, s, b, bound);
    FirstForm(OwnFields(k, sup), env, s, f, rest);
  }

  lemma FirstForm(view: View, env: Env, s: State, f: Func, rest: seq<byte>)
    requires s.frames != [] && rest != [] && InstructionLength(rest, Upvalues(f.constants)) <= |rest|
    ensures var ins := rest[..InstructionLength(rest, Upvalues(f.constants))];
            InstructionLength(ins, Upvalues(f.constants)) == |ins|
                && ExecuteFirst(view, env, s, f, rest) == Execute(view, env, s, f, ins)
  {
    hide Execute;
    Fetch(rest, InstructionLength(rest, Upvalues(f.constants)), Upvalues(f.constants));
  }

  lemma ShiftedFirst(env: Env, s: State, f: Func, b: Func, own: nat, k: nat, sup: nat, ins: seq<byte>, bound: seq<byte>)
    requires s.frames != [] && own + k < 256 && |ins| == |bound| == 2 && IsField(ins[0]) && ins[0] == bound[0]
             && ins[1] < own
    requires bound[1] == (ins[1] + k) % 256
    requires InstructionLength(ins, Upvalues(f.constants)) == 2 && InstructionLength(bound, Upvalues(b.constants)) == 2
    ensures Execute(AllFields, env, s, b, bound) == Execute(OwnFields(k, sup), env, s, f, ins)
  {
    hide StepField;
    SameFieldStep(s, ins[0], own, k, sup, ins[1]);
  }

  lemma SameConstants(env: Env, s: State, f: Func, own: nat, k: nat, sup: nat, ins: seq<byte>, rest: seq<byte>)
    requires WellFormed(f, own) && s.frames != [] && IsBody(rest, Upvalues(f.constants), own) && !IsField(rest[0])
    requires ins != [] && InstructionLength(ins, Upvalues(f.constants)) == |ins| <= |rest| && ins == rest[..|ins|]
    requires forall c :: c in Supers(rest, Upvalues(f.constants), own) ==>
               c in Supers(f.code, Upvalues(f.constants), own)
    requires Upvalues(Bind(f, own, k, sup).constants) == Upvalues(f.constants)
    ensures Execute(AllFields, env, s, Bind(f, own, k, sup), ins) == Execute(OwnFields(k, sup), env, s, f, ins)
  {
    hide StepCall, StepJump, StepReturn, StepOther, StepField, Advance, WellFormed, IsBody, Upvalues, Supers, Closures,
         Bind;
    assert ins[0] == rest[0];
    if IsSuper(ins[0]) || ins[0] == CODE_CONSTANT || ins[0] == CODE_CLOSURE {
      var c := ReadShort(ins, if IsSuper(ins[0]) then 3 else 1);
      BoundConst(f, own, k, sup, c);
      if IsSuper(ins[0]) { SuperNamed(rest, Upvalues(f.constants), own); }
    }
  }

  lemma SuperNamed(rest: seq<byte>, upvalues: seq<nat>, own: nat)
    requires IsBody(rest, upvalues, own) && IsSuper(rest[0])
    ensures |rest| >= 5 && ReadShort(rest[..5], 3) in Supers(rest, upvalues, own)
  {
  }

  // ----- Frames stay at the start of instructions -----

  ghost predicate FrameAligned(root: Func, fr: Frame) {
    var f := Lookup(root, fr.path);
    f.Some? ==> IsStart(f.value.code, Upvalues(f.value.constants), fr.ip)
  }

  ghost predicate Aligned(root: Func, s: State) {
    forall j :: 0 <= j < |s.frames| ==> FrameAligned(root, s.frames[j])
  }

  // [ip] is where the top frame may go after [ins].
  predicate Goes(ins: seq<byte>, ip: nat, to: nat) {
    ins != [] && ins[0] != CODE_END &&
    (to == ip + |ins|
          || (IsJump(ins[0]) && |ins| == 3
               && to == if ins[0] == CODE_LOOP then ip + 3 - ReadShort(ins, 1) else ip + 3 + ReadShort(ins, 1)))
  }

  // The frames below the top stay, the top one goes on, and others start.
  ghost predicate Follows(s: State, ins: seq<byte>, t: State)
    requires s.frames != []
  {
    var m := |s.frames| - 1;
    && |t.frames| >= m && t.frames[..m] == s.frames[..m]
    && forall j {:trigger t.frames[j]} :: m <= j < |t.frames| ==>
      t.frames[j].ip == 0 || (t.frames[j].path == s.frames[m].path && Goes(ins, s.frames[m].ip, t.frames[j].ip))
  }

  lemma FieldFollows(view: View, s: State, ins: seq<byte>, i: nat)
    requires s.frames != [] && |ins| == 2 && IsField(ins[0]) && StepField(view, s, ins[0], i).Next?
    ensures Follows(s, ins, StepField(view, s, ins[0], i).state)
  {
    hide LoadField, StoreField;
  }

  lemma CallFollows(env: Env, s: State, ins: seq<byte>, cls: Option<nat>, symbol: nat, numArgs: nat)
    requires s.frames != [] && ins != [] && ins[0] != CODE_END && StepCall(env, s, |ins|, cls, symbol, numArgs).Next?
    ensures Follows(s, ins, StepCall(env, s, |ins|, cls, symbol, numArgs).state)
  {
  }

  lemma JumpFollows(s: State, ins: seq<byte>)
    requires s.frames != [] && |ins| == 3 && IsJump(ins[0]) && StepJump(s, ins[0], ReadShort(ins, 1)).Next?
    ensures Follows(s, ins, StepJump(s, ins[0], ReadShort(ins, 1)).state)
  {
  }

  lemma ReturnFollows(env: Env, s: State, ins: seq<byte>)
    requires s.frames != [] && StepReturn(env, s).Next?
    ensures Follows(s, ins, StepReturn(env, s).state)
  {
  }

  lemma ExecuteFollows(view: View, env: Env, s: State, f: Func, ins: seq<byte>)
    requires s.frames != [] && ins != [] && InstructionLength(ins, Upvalues(f.constants)) == |ins|
    requires Execute(view, env, s, f, ins).Next?
    ensures Follows(s, ins, Execute(view, env, s, f, ins).state)
  {
    hide LoadField, StoreField, Superclass, Upvalues, StepField, StepCall, StepJump, StepReturn;
    var op := ins[0];
    if IsField(op) {
      FieldFollows(view, s, ins, ins[1]);
    } else if IsSuper(op) {
      CallFollows(env, s, ins, Superclass(view, f, ReadShort(ins, 3)), ReadShort(ins, 1), op - CODE_SUPER_0 + 1);
    } else if CODE_CALL_0 <= op <= CODE_CALL_16 {
      CallFollows(env, s, ins, None, ReadShort(ins, 1), op - CODE_CALL_0 + 1);
    } else if IsJump(op) {
      JumpFollows(s, ins);
    } else if op == CODE_RETURN {
      ReturnFollows(env, s, ins);
    }
  }

  // Every frame stays at the start of an instruction.
  lemma StepAligned(view: View, env: Env, root: Func, own: nat, s: State)
    requires WellFormed(root, own) && Aligned(root, s) && Step(view, env, root, s).Next?
    ensures Aligned(root, Step(view, env, root, s).state)
  {
    hide WellFormed, Execute, IsStart, Upvalues, FrameAligned;
    var m := |s.frames| - 1;
    var fr := s.frames[m];
    var f := Lookup(root, fr.path).value;
    var rest := f.code[fr.ip..];
    var ins := rest[..InstructionLength(rest, Upvalues(f.constants))];
    FirstForm(view, env, s, f, rest);
    ExecuteFollows(view, env, s, f, ins);
    var t := Step(view, env, root, s).state;
    forall j | 0 <= j < |t.frames| ensures FrameAligned(root, t.frames[j]) {
      if j < m {
        assert t.frames[j] == t.frames[..m][j] == s.frames[..m][j] == s.frames[j];
      } else {
        FrameNext(root, own, fr, ins, t.frames[j]);
      }
    }
  }

  lemma FrameNext(root: Func, own: nat, fr: Frame, ins: seq<byte>, to: Frame)
    requires WellFormed(root, own) && FrameAligned(root, fr)
    requires Lookup(root, fr.path).Some? && fr.ip < |Lookup(root, fr.path).value.code|
    requires var f := Lookup(root, fr.path).value;
             var rest := f.code[fr.ip..];
                 var n := InstructionLength(rest, Upvalues(f.constants)); n <= |rest| && ins == rest[..n]
    requires to.ip == 0 || (to.path == fr.path && Goes(ins, fr.ip, to.ip))
    ensures FrameAligned(root, to)
  {
    hide IsBody, IsStart, Upvalues, BindCode, Lookup, InstructionLength;
    LookupBound(root, own, 0, 0, to.path);
    if Lookup(root, to.path).Some? {
      var f := Lookup(root, to.path).value;
      var u := Upvalues(f.constants);
      StartZero(f.code, u, own);
      if to.ip != 0 {
        BindSuffix(f.code, u, own, 0, fr.ip);
        assert ins[0] == f.code[fr.ip];
        if IsJump(ins[0]) && |ins| == 3 {
          assert ReadShort(ins, 1) == ReadShort(f.code, fr.ip + 1);
        }
      }
    }
  }

  lemma StartZero(code: seq<byte>, upvalues: seq<nat>, own: nat)
    requires IsBody(code, upvalues, own)
    ensures IsStart(code, upvalues, 0)
  {
  }

  // ----- The simulation -----

  // One step of the bound method is one step of the method on its own fields.
  lemma StepSimulates(env: Env, root: Func, own: nat, k: nat, sup: nat, s: State)
    requires WellFormed(root, own) && own + k < 256 && Aligned(root, s)
    ensures Step(AllFields, env, Bind(root, own, k, sup), s) == Step(OwnFields(k, sup), env, root, s)
  {
    hide WellFormed, ExecuteFirst, IsStart, IsBody, Supers, Closures, Upvalues, BindCode;
    if s.frames != [] {
      var fr := s.frames[|s.frames| - 1];
      LookupBound(root, own, k, sup, fr.path);
      if Lookup(root, fr.path).Some? {
        var f := Lookup(root, fr.path).value;
        FunctionBody(f, own);
        BindSuffix(f.code, Upvalues(f.constants), own, k, fr.ip);
        NamedSuffix(f.code, Upvalues(f.constants), own, fr.ip);
        SameFirst(env, s, f, own, k, sup, f.code[fr.ip..]);
      }
    }
  }

  lemma FunctionBody(f: Func, own: nat)
    requires WellFormed(f, own)
    ensures IsBody(f.code, Upvalues(f.constants), own)
  {
  }

  // Any run of the bound method on whole instances does what the method does when it
  // sees only its own fields, and can touch no inherited one.
  lemma {:induction false} BindSimulates(env: Env, root: Func, own: nat, k: nat, sup: nat, s: State, n: nat)
    requires WellFormed(root, own) && own + k < 256 && Aligned(root, s)
    ensures Run(AllFields, env, Bind(root, own, k, sup), s, n) == Run(OwnFields(k, sup), env, root, s, n)
    decreases n
  {
    hide WellFormed, Step, Aligned;
    if n > 0 {
      StepSimulates(env, root, own, k, sup, s);
      if Step(OwnFields(k, sup), env, root, s).Next? {
        StepAligned(OwnFields(k, sup), env, root, own, s);
        BindSimulates(env, root, own, k, sup, Step(OwnFields(k, sup), env, root, s).state, n - 1);
      }
    }
  }

  // So does a call of the method, from its first instruction on.
  lemma MethodSimulates(
      env: Env, root: Func, own: nat, k: nat, sup: nat, args: seq<Val>, resume: nat, heap: Heap, world: nat, n: nat)
    requires WellFormed(root, own) && own + k < 256
    ensures var s := State([Frame([], 0, 0, resume)], args, heap, world);
            Run(AllFields, env, Bind(root, own, k, sup), s, n) == Run(OwnFields(k, sup), env, root, s, n)
  {
    hide Run;
    StartZero(root.code, Upvalues(root.constants), own);
    BindSimulates(env, root, own, k, sup, State([Frame([], 0, 0, resume)], args, heap, world), n);
  }

  // Accesses to own fields neither change the inherited ones nor depend on them.
  lemma OwnFieldsOnly(k: nat, sup: nat, a: seq<Val>, b: seq<Val>, i: nat, v: Val)
    requires |a| == |b| && k <= |a| && a[k..] == b[k..]
    ensures LoadField(OwnFields(k, sup), a, i) == LoadField(OwnFields(k, sup), b, i)
    ensures var r := StoreField(OwnFields(k, sup), a, i, v);
            r.Some? ==>
                  |r.value| == |a| && r.value[..k] == a[..k]
                      && StoreField(OwnFields(k, sup), b, i, v) == Some(b[..k] + r.value[k..])
    ensures StoreField(OwnFields(k, sup), a, i, v).None? <==> i >= |a| - k
  {
  }
}
