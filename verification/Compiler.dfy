/** The single-pass compiler: a recursive-descent parser that emits bytecode as it
    consumes tokens and patches jumps afterwards. */
module Compilation {
  import opened Syntax
  import opened Semantics
  import opened Bytes
  import opened Bytecode
  import opened CodeGen
  import opened SimulateExpr
  import opened SimulateStmt
  import opened Slots
  import opened LoopPatching
  import opened Emission
  import opened Correctness
  import opened Sequences

  const MAX_LOCALS := 256
  const MAX_CONSTANTS := 0x1_0000
  const MAX_MODULE_VARS := 0x1_0000
  const MAX_JUMP := 0x1_0000
  const MAX_VARIABLE_NAME := 64
  const MAX_METHOD_NAME := 64

  // ----- What the compiler accepts -----

  predicate AcceptsName(t: Tables, names: seq<string>, x: string) {
    Innermost(names, x) >= 0 || x in t.globals || |t.globals| < MAX_MODULE_VARS
  }

  // The expressions that compile without an error, given the tables so far.
  predicate AcceptsExpr(t: Tables, names: seq<string>, e: Expr)
    decreases e
  {
    match e
    case Lit(v) => Special(v) || v in t.consts || |t.consts| < MAX_CONSTANTS
    case Variable(x) => AcceptsName(t, names, x)
    case Assign(x, rhs) => AcceptsName(t, names, x) && AcceptsExpr(NeedName(t, names, x), names, rhs)
    case Unary(_, operand) => AcceptsExpr(t, names, operand)
    case Binary(_, l, r) => AcceptsExpr(t, names, l) && AcceptsExpr(GrowExpr(t, names, l), names, r)
    case And(l, r) =>
      AcceptsExpr(t, names, l) && AcceptsExpr(GrowExpr(t, names, l), names, r) && SizeExpr(names, r) <= MAX_JUMP
    case Or(l, r) =>
      AcceptsExpr(t, names, l) && AcceptsExpr(GrowExpr(t, names, l), names, r) && SizeExpr(names, r) <= MAX_JUMP
    case Cond(c, y, n) =>
      && AcceptsExpr(t, names, c) && AcceptsExpr(GrowExpr(t, names, c), names, y)
      && SizeExpr(names, y) + 3 <= MAX_JUMP
      && AcceptsExpr(GrowExpr(GrowExpr(t, names, c), names, y), names, n) && SizeExpr(names, n) <= MAX_JUMP
    case Get(r, name) => AcceptsExpr(t, names, r) && |name| <= MAX_METHOD_NAME
    case Set(r, name, rhs) =>
      && AcceptsExpr(t, names, r) && AcceptsExpr(GrowExpr(t, names, r), names, rhs)
      && |name| <= MAX_METHOD_NAME
  }

  // [e] extends [left] to the right.
  predicate ExtendsExpr(e: Expr, left: Expr) {
    || (e.Binary? && e.left == left) || (e.And? && e.left == left) || (e.Or? && e.left == left)
    || (e.Cond? && e.test == left) || (e.Get? && e.receiver == left) || (e.Set? && e.receiver == left)
  }

  lemma InfixExtends(canAssign: bool, left: Expr, toks: seq<Token>)
    requires toks != [] && ParseInfix(canAssign, left, toks).Ok?
    ensures ExtendsExpr(ParseInfix(canAssign, left, toks).value, left)
  {
    hide ParsePrecedence, SkipLines, LineBeforeDot;
  }

  lemma AcceptsLeft(t: Tables, names: seq<string>, e: Expr, left: Expr)
    requires ExtendsExpr(e, left) && AcceptsExpr(t, names, e)
    ensures AcceptsExpr(t, names, left)
  {
    hide SizeExpr, GrowExpr;
  }

  // One iteration of the infix loop.
  lemma InfixesStep(p: int, left: Expr, toks: seq<Token>)
    ensures toks == [] || p > InfixPrecedence(toks[0]) ==> ParseInfixes(p, left, toks) == Ok(left, toks)
    ensures toks != [] && p <= InfixPrecedence(toks[0]) ==>
              var step := ParseInfix(p <= CONDITIONAL, left, toks);
              ParseInfixes(p, left, toks) == if step.Fail? then Fail else ParseInfixes(p, step.value, step.rest)
  {
    hide ParseInfix;
  }

  // Whatever comes next, the compiler has to accept the left operand first.
  lemma {:induction false} AcceptsFirst(t: Tables, names: seq<string>, p: int, left: Expr, toks: seq<Token>)
    requires var r := ParseInfixes(p, left, toks); r.Ok? && AcceptsExpr(t, names, r.value)
    ensures AcceptsExpr(t, names, left)
    decreases |toks|
  {
    hide *;
    InfixesStep(p, left, toks);
    if toks != [] && p <= InfixPrecedence(toks[0]) {
      var step := ParseInfix(p <= CONDITIONAL, left, toks);
      InfixExtends(p <= CONDITIONAL, left, toks);
      AcceptsFirst(t, names, p, step.value, step.rest);
      AcceptsLeft(t, names, step.value, left);
    }
  }

  // ----- Scopes -----

  // The number of locals left once those declared at depth [limit] or deeper are
  // discarded, innermost first.
  function Below(depths: seq<int>, limit: int): (r: nat)
    ensures r <= |depths|
  {
    if depths == [] || depths[|depths| - 1] < limit then |depths| else Below(depths[..|depths| - 1], limit)
  }

  // The depths of the locals in scope after [s], compiled at depth [d].
  function DepthsAfter(depths: seq<int>, d: int, s: Stmt): seq<int>
    decreases s
  {
    match s
    case Seq(first, rest) => DepthsAfter(DepthsAfter(depths, d, first), d, rest)
    case Declare(_, _) => depths + [d]
    case _ => depths
  }

  // A local called [x] is already declared at depth [d].
  predicate Redeclares(names: seq<string>, depths: seq<int>, d: int, x: string)
    requires |names| == |depths|
  {
    exists i :: Below(depths, d) <= i < |names| && names[i] == x
  }

  lemma {:induction false} DepthsGrow(names: seq<string>, depths: seq<int>, d: int, s: Stmt, limit: int)
    requires |names| == |depths|
    ensures |DepthsAfter(depths, d, s)| == |Declared(names, s)| && depths <= DepthsAfter(depths, d, s)
    ensures limit <= d ==> Below(DepthsAfter(depths, d, s), limit) == Below(depths, limit)
    ensures (forall i :: 0 <= i < |depths| ==> depths[i] <= d) ==>
              forall i :: 0 <= i < |DepthsAfter(depths, d, s)| ==> DepthsAfter(depths, d, s)[i] <= d
    decreases s
  {
    match s
    case Seq(first, rest) =>
      DepthsGrow(names, depths, d, first, limit);
      DepthsGrow(Declared(names, first), DepthsAfter(depths, d, first), d, rest, limit);
    case Declare(_, _) => assert (depths + [d])[..|depths|] == depths;
    case _ =>
  }

  // The statements that compile without an error at depth [d]. [kept] is the number
  // of locals outside the innermost loop, if there is one.
  predicate AcceptsStmt(t: Tables, names: seq<string>, depths: seq<int>, d: int, looping: bool, kept: nat, s: Stmt)
    decreases s
  {
    && |names| == |depths|
    && match s
       case Skip => true
       case Seq(first, rest) =>
         && AcceptsStmt(t, names, depths, d, looping, kept, first)
         && AcceptsStmt(GrowStmt(t, names, first), Declared(names, first), DepthsAfter(depths, d, first), d, looping,
            kept, rest)
       case Evaluate(e) => AcceptsExpr(t, names, e)
       case Declare(x, e) =>
         && AcceptsExpr(t, names, e) && !Redeclares(names, depths, d, x) && |names| != MAX_LOCALS
         && |x| <= MAX_VARIABLE_NAME
       case Block(body) => AcceptsStmt(t, names, depths, d + 1, looping, kept, body)
       case IfThen(c, yes) =>
         && AcceptsExpr(t, names, c) && AcceptsStmt(GrowExpr(t, names, c), names, depths, d, looping, kept, yes)
         && SizeStmt(names, kept, yes) <= MAX_JUMP
       case IfElse(c, yes, no) =>
         && AcceptsExpr(t, names, c) && AcceptsStmt(GrowExpr(t, names, c), names, depths, d, looping, kept, yes)
         && SizeStmt(names, kept, yes) + 3 <= MAX_JUMP
         && AcceptsStmt(GrowStmt(GrowExpr(t, names, c), names, yes), names, depths, d, looping, kept, no)
         && SizeStmt(names, kept, no) <= MAX_JUMP
       case Loop(c, body) =>
         && AcceptsExpr(t, names, c) && AcceptsStmt(GrowExpr(t, names, c), names, depths, d, true, |names|, body)
         && SizeStmt(names, |names|, body) + 3 <= MAX_JUMP
       case ForIn(x, sequence, body) =>
         && AcceptsExpr(t, names, sequence) && |names| + 2 <= MAX_LOCALS
         && AcceptsStmt(ForTables(t, names, sequence), ForNames(names, x), depths + [d + 1, d + 1] + [d + 2], d + 2,
            true, |names| + 2, body)
         && SizeForLoop(names, x, body) - ItemOffset(names) <= MAX_JUMP
       case BreakLoop => looping
       case ContinueLoop => looping
       case Give(e) => AcceptsExpr(t, names, e)
  }

  // Compiling [s] writes past the array of locals: a for statement makes sure that two
  // more locals fit, and then adds a third.
  predicate Overruns(names: seq<string>, s: Stmt)
    decreases s
  {
    match s
    case Seq(first, rest) => Overruns(names, first) || Overruns(Declared(names, first), rest)
    case Declare(_, _) => |names| >= MAX_LOCALS
    case Block(body) => Overruns(names, body)
    case IfThen(_, yes) => Overruns(names, yes)
    case IfElse(_, yes, no) => Overruns(names, yes) || Overruns(names, no)
    case Loop(_, body) => Overruns(names, body)
    case ForIn(x, _, body) => |names| + 2 >= MAX_LOCALS || Overruns(ForNames(names, x), body)
    case _ => false
  }

  lemma SimpleOverruns(names: seq<string>)
    ensures !Overruns(names, Skip) && !Overruns(names, BreakLoop) && !Overruns(names, ContinueLoop)
  {
  }

  lemma NestedOverruns(names: seq<string>, c: Expr, a: Stmt, b: Stmt)
    ensures Overruns(names, IfThen(c, a))
            == Overruns(names, Loop(c, a)) == Overruns(names, Block(a)) == Overruns(names, a)
    ensures Overruns(names, IfElse(c, a, b)) == (Overruns(names, a) || Overruns(names, b))
    ensures Overruns(names, Seq(a, b)) == (Overruns(names, a) || Overruns(Declared(names, a), b))
  {
    hide Declared;
  }

  lemma ForOverruns(names: seq<string>, x: string, e: Expr, a: Stmt)
    ensures Overruns(names, ForIn(x, e, a)) == (|names| + 2 >= MAX_LOCALS || Overruns(ForNames(names, x), a))
  {
    hide ForNames;
  }

  // The locals, the depth and the loops around the code being compiled.
  datatype Scope = Scope(names: seq<string>, depths: seq<int>, depth: int, loop: LoopChain)

  // The innermost loop of a scope, whose end is not known yet.
  function LoopAt(at: Scope): (r: LoopInfo)
    ensures r.exit.Pending?
  {
    match at.loop
    case NoLoop => LoopInfo(0, 0, Pending)
    case Within(start, _, _, depth, _) =>
      LoopInfo(if start < 0 then 0 else start + 1, Below(at.depths, depth + 1), Pending)
  }

  function ScopeAfter(at: Scope, s: Stmt): Scope {
    at.(names := Declared(at.names, s), depths := DepthsAfter(at.depths, at.depth, s))
  }

  predicate Accepts(t: Tables, at: Scope, s: Stmt) {
    AcceptsStmt(t, at.names, at.depths, at.depth, at.loop.Within?, LoopAt(at).locals, s)
  }

  // Nothing in scope is deeper than the scope, and nothing of a loop is outside it.
  predicate Proper(at: Scope) {
    && |at.names| == |at.depths| && (forall i :: 0 <= i < |at.depths| ==> at.depths[i] <= at.depth)
    && (at.loop.Within? ==> at.loop.scopeDepth <= at.depth && at.loop.start >= -1)
  }

  // ----- The compiler -----

  // The loops around the code being compiled, innermost first.
  datatype LoopChain = NoLoop | Within(start: int, exitJump: nat, body: nat, scopeDepth: int, enclosing: LoopChain)

  class Compiler {
    var toks: seq<Token>
    var code: seq<byte>
    var constants: seq<Value>
    var methods: seq<string>
    var globals: seq<string>
    // How many variables each function among the constants closes over.
    const upvalueCounts: seq<nat>
    var numSlots: int
    var maxSlots: int
    var localNames: seq<string>
    var localDepths: seq<int>
    var scopeDepth: int
    var loop: LoopChain
    var hasError: bool
    // A local has been written past the end of their array.
    var overrun: bool

    ghost function Out(): Output
      reads this
    {
      Output(code, Tables(constants, methods, globals), numSlots, maxSlots)
    }

    ghost function Here(): Scope
      reads this
    {
      Scope(localNames, localDepths, scopeDepth, loop)
    }

    // ----- Tokens -----

    method NextToken()
      modifies `toks
      ensures toks == if old(toks) == [] then [] else old(toks)[1..]
    {
      if toks != [] { toks := toks[1..]; }
    }

    method Match(t: Token) returns (matched: bool)
      modifies `toks
      ensures matched == (old(toks) != [] && old(toks)[0] == t)
      ensures toks == if matched then old(toks)[1..] else old(toks)
    {
      matched := toks != [] && toks[0] == t;
      if matched { NextToken(); }
    }

    method Consume(t: Token)
      modifies `toks, `hasError
      ensures hasError == (old(hasError) || old(toks) == [] || old(toks)[0] != t)
      ensures old(toks) != [] && old(toks)[0] == t ==> toks == old(toks)[1..]
    {
      var found := toks != [] && toks[0] == t;
      NextToken();
      if !found {
        hasError := true;
        if toks != [] && toks[0] == t { NextToken(); }
      }
    }

    method IgnoreNewlines()
      modifies `toks
      ensures toks == SkipLines(old(toks))
    {
      var matched := Match(Line);
      while matched
        invariant matched ==> SkipLines(toks) == SkipLines(old(toks))
        invariant !matched ==> toks == SkipLines(old(toks))
        decreases |toks|, matched
      {
        matched := Match(Line);
      }
    }

    method AllowLineBeforeDot()
      modifies `toks
      ensures toks == LineBeforeDot(old(toks))
    {
      if |toks| >= 2 && toks[0] == Line && toks[1] == Dot { NextToken(); }
    }

    // ----- Emitting code -----

    method EmitByte(b: nat)
      modifies `code
      ensures code == old(code) + [b % 256]
    {
      code := code + [b % 256];
    }

    method EmitOp(op: byte)
      modifies `code, `numSlots, `maxSlots
      ensures Out() == Emit(old(Out()), op, [])
    {
      EmitByte(op);
      numSlots := numSlots + StackEffect(op);
      if numSlots > maxSlots { maxSlots := numSlots; }
      assert [op] + [] == [op];
    }

    method EmitShort(n: nat)
      modifies `code
      ensures code == old(code) + Short(n)
    {
      EmitByte(n / 256);
      EmitByte(n);
    }

    method EmitByteArg(op: byte, arg: nat)
      modifies `code, `numSlots, `maxSlots
      ensures Out() == Emit(old(Out()), op, [arg % 256])
    {
      EmitOp(op);
      EmitByte(arg);
      assert old(code) + ([op] + []) + [arg % 256] == old(code) + ([op] + [arg % 256]);
    }

    method EmitShortArg(op: byte, arg: nat)
      modifies `code, `numSlots, `maxSlots
      ensures Out() == Emit(old(Out()), op, Short(arg))
    {
      EmitOp(op);
      EmitShort(arg);
      assert old(code) + ([op] + []) + Short(arg) == old(code) + ([op] + Short(arg));
    }

    method EmitJump(op: byte) returns (offset: nat)
      modifies `code, `numSlots, `maxSlots
      ensures Out() == Emission.EmitJump(old(Out()), op)
      ensures offset == |old(code)| + 1 && |code| == |old(code)| + 3
    {
      EmitOp(op);
      EmitByte(0xff);
      EmitByte(0xff);
      offset := |code| - 2;
      assert old(code) + ([op] + []) + [0xff] + [0xff] == old(code) + ([op] + [0xff, 0xff]);
    }

    // Reports an error if the distance is over the limit. The limit itself does not
    // fit in the operand.
    method PatchJump(offset: nat)
      requires offset + 2 <= |code|
      modifies `code, `hasError
      ensures Out() == Emission.PatchJump(old(Out()), offset)
      ensures |code| == |old(code)| && hasError == (old(hasError) || |code| - offset - 2 > MAX_JUMP)
    {
      var jump := |code| - offset - 2;
      if jump > MAX_JUMP { hasError := true; }
      code := code[offset := (jump / 256) % 256];
      code := code[offset + 1 := jump % 256];
      assert code == old(code)[..offset] + Short(jump) + old(code)[offset + 2..];
    }

    // ----- Tables -----

    method MethodSymbol(name: string) returns (symbol: nat)
      modifies `methods
      ensures methods == AddUnique(old(methods), name) && symbol == IndexOf(methods, name)
    {
      symbol := Find(methods, name);
      if symbol == |methods| {
        methods := methods + [name];
        IndexOfLast(old(methods), name);
      }
    }

    method AddConstant(v: Value) returns (index: nat)
      modifies `constants, `hasError
      ensures hasError == (old(hasError) || (v !in old(constants) && |old(constants)| >= MAX_CONSTANTS))
      ensures !hasError ==> constants == AddUnique(old(constants), v) && index == IndexOf(constants, v)
    {
      index := Find(constants, v);
      if index == |constants| {
        if |constants| < MAX_CONSTANTS {
          constants := constants + [v];
          IndexOfLast(old(constants), v);
        } else {
          hasError := true;
        }
      }
    }

    // The slot of the innermost local called [name], or -1.
    method ResolveLocal(name: string) returns (slot: int)
      ensures slot == Innermost(localNames, name)
    {
      slot := |localNames| - 1;
      while slot >= 0
        invariant -1 <= slot < |localNames|
        invariant forall i :: slot < i < |localNames| ==> localNames[i] != name
      {
        if localNames[slot] == name { break; }
        slot := slot - 1;
      }
    }

    // Finds the variable called [name], which is declared in the module if it is not
    // known at all.
    method ResolveName(name: string) returns (v: Resolved)
      modifies `globals, `hasError
      ensures hasError == (old(hasError) || !AcceptsName(old(Out()).tables, localNames, name))
      ensures !hasError ==> Out().tables == NeedName(old(Out()).tables, localNames, name)
                            && v == Resolve(Out().tables, localNames, name)
    {
      var slot := ResolveLocal(name);
      if slot >= 0 { return Local(slot); }
      var index := Find(globals, name);
      if index == |globals| {
        if |globals| >= MAX_MODULE_VARS {
          hasError := true;
        } else {
          globals := globals + [name];
          IndexOfLast(old(globals), name);
        }
      }
      v := Module(index);
    }

    // ----- Expressions -----

    // The tokens parsed as [r] have been compiled, starting from [before]. An error
    // is reported exactly when they do not parse or exceed a limit.
    ghost predicate CompiledExpr(r: Parsed<Expr>, before: Output)
      reads this
    {
      && (!hasError <==> r.Ok? && AcceptsExpr(before.tables, localNames, r.value))
      && (!hasError ==> toks == r.rest && Out() == AfterExpr(before, localNames, r.value))
    }

    method ParsePrecedence(p: int)
      requires !hasError && p >= LOWEST
      modifies `toks, `code, `constants, `methods, `globals, `numSlots, `maxSlots, `hasError
      ensures CompiledExpr(Syntax.ParsePrecedence(p, old(toks)), old(Out()))
      decreases |toks|, 2
    {
      hide ParsePrefix, ParseInfixes, AfterExpr, AcceptsExpr, ParseInfix;
      ghost var all, start := toks, Out();
      ghost var prefix := ParsePrefix(p <= CONDITIONAL, toks);
      Prefix(p <= CONDITIONAL);
      if hasError {
        if prefix.Ok? { NotAccepted(start.tables, localNames, p, prefix.value, prefix.rest); }
        return;
      }
      ghost var left := prefix.value;
      while toks != [] && p <= InfixPrecedence(toks[0])
        invariant !hasError && |toks| < |all|
        invariant Out() == AfterExpr(start, localNames, left) && AcceptsExpr(start.tables, localNames, left)
        invariant Syntax.ParsePrecedence(p, all) == ParseInfixes(p, left, toks)
        decreases |toks|
      {
        ghost var step := ParseInfix(p <= CONDITIONAL, left, toks);
        InfixesStep(p, left, toks);
        Infix(p <= CONDITIONAL, left, start);
        if hasError {
          if step.Ok? { NotAccepted(start.tables, localNames, p, step.value, step.rest); }
          return;
        }
        left := step.value;
      }
      InfixesStep(p, left, toks);
    }

    method Expression()
      requires !hasError
      modifies `toks, `code, `constants, `methods, `globals, `numSlots, `maxSlots, `hasError
      ensures CompiledExpr(ParseExpression(old(toks)), old(Out()))
      decreases |toks|, 3
    {
      ParsePrecedence(LOWEST);
    }

    method Prefix(canAssign: bool)
      requires !hasError
      modifies `toks, `code, `constants, `methods, `globals, `numSlots, `maxSlots, `hasError
      ensures CompiledExpr(ParsePrefix(canAssign, old(toks)), old(Out()))
      decreases |toks|, 1
    {
      hide Syntax.ParsePrecedence, AfterExpr;
      if toks == [] {
        hasError := true;
        return;
      }
      ghost var all := toks;
      var t := toks[0];
      NextToken();
      match t
      case LeftParen => Grouping(canAssign, all);
      case Literal(v) => LiteralValue(canAssign, all, v);
      case Name(x) => Name(canAssign, all, x);
      case _ => Unary(canAssign, all, t);
    }

    method Grouping(ghost canAssign: bool, ghost all: seq<Token>)
      requires !hasError && all != [] && toks == all[1..] && all[0] == LeftParen
      modifies `toks, `code, `constants, `methods, `globals, `numSlots, `maxSlots, `hasError
      ensures CompiledExpr(ParsePrefix(canAssign, all), old(Out()))
      decreases |toks|, 4
    {
      hide ParsePrefix, Syntax.ParsePrecedence, AfterExpr, AcceptsExpr;
      ParseGrouping(canAssign, all);
      ParsePrecedence(LOWEST);
      if hasError { return; }
      Consume(RightParen);
    }

    method LiteralValue(ghost canAssign: bool, ghost all: seq<Token>, v: Value)
      requires !hasError && all != [] && toks == all[1..] && all[0] == Literal(v)
      modifies `toks, `code, `constants, `numSlots, `maxSlots, `hasError
      ensures CompiledExpr(ParsePrefix(canAssign, all), old(Out()))
    {
      hide ParsePrefix, Syntax.ParsePrecedence, AfterExpr, AcceptsExpr, Emit, Short;
      ghost var start := Out();
      ParseLiteral(canAssign, all, v);
      AcceptsLit(start.tables, localNames, v);
      EmitLit(start, localNames, v);
      match v
      case Null => EmitOp(CODE_NULL);
      case False => EmitOp(CODE_FALSE);
      case True => EmitOp(CODE_TRUE);
      case _ =>
        var index := AddConstant(v);
        if hasError { return; }
        EmitShortArg(CODE_CONSTANT, index);
    }

    method LoadLocal(slot: nat)
      modifies `code, `numSlots, `maxSlots
      ensures Out() == EmitLoadLocal(old(Out()), slot)
    {
      if slot <= 8 {
        EmitOp(CODE_LOAD_LOCAL_0 + slot);
      } else {
        EmitByteArg(CODE_LOAD_LOCAL, slot);
      }
    }

    method Name(canAssign: bool, ghost all: seq<Token>, x: string)
      requires !hasError && all != [] && toks == all[1..] && all[0] == Syntax.Name(x)
      modifies `toks, `code, `constants, `methods, `globals, `numSlots, `maxSlots, `hasError
      ensures CompiledExpr(ParsePrefix(canAssign, all), old(Out()))
      decreases |toks|, 4
    {
      hide ParsePrefix, Syntax.ParsePrecedence, AfterExpr, AcceptsExpr, Emit, Innermost, NeedName, Resolve, AcceptsName,
           LineBeforeDot;
      ghost var start := Out();
      ParseName(canAssign, all, x);
      AcceptsVariable(start.tables, localNames, x);
      var v := ResolveName(x);
      if hasError {
        NameRejected(start.tables, localNames, x);
        return;
      }
      var assigns := false;
      if canAssign { assigns := Match(Equal); }
      if assigns {
        ghost var rhs := Syntax.ParsePrecedence(LOWEST, toks);
        ParsePrecedence(LOWEST);
        if rhs.Ok? { AcceptsAssign(start.tables, localNames, x, rhs.value); }
        if hasError { return; }
        EmitAssign(start, localNames, x, rhs.value);
        match v
        case Local(slot) => EmitByteArg(CODE_STORE_LOCAL, slot);
        case Module(index) => EmitShortArg(CODE_STORE_MODULE_VAR, index);
      } else {
        EmitVariable(start, localNames, x);
        match v {
          case Local(slot) => LoadLocal(slot);
          case Module(index) => EmitShortArg(CODE_LOAD_MODULE_VAR, index);
        }
        AllowLineBeforeDot();
      }
    }

    // The operators that can start an expression.
    method Unary(ghost canAssign: bool, ghost all: seq<Token>, t: Token)
      requires !hasError && all != [] && toks == all[1..] && all[0] == t && !t.LeftParen? && !t.Literal? && !t.Name?
      modifies `toks, `code, `constants, `methods, `globals, `numSlots, `maxSlots, `hasError
      ensures CompiledExpr(ParsePrefix(canAssign, all), old(Out()))
      decreases |toks|, 4
    {
      hide ParsePrefix, Syntax.ParsePrecedence, AfterExpr, AcceptsExpr, UnaryName, SkipLines, PrefixOp;
      ghost var start := Out();
      ParseUnary(canAssign, all);
      var uop := PrefixOp(t);
      if uop.Fail? {
        hasError := true;
        return;
      }
      IgnoreNewlines();
      ghost var operand := Syntax.ParsePrecedence(CALL, toks);
      ParsePrecedence(CALL);
      if operand.Ok? { AcceptsUnary(start.tables, localNames, uop.value, operand.value); }
      if hasError { return; }
      CallMethod(0, UnaryName(uop.value));
      EmitUnary(start, localNames, Expr.Unary(uop.value, operand.value), operand.value, UnaryName(uop.value));
    }

    method CallMethod(arity: nat, name: string)
      requires arity <= 16
      modifies `code, `methods, `numSlots, `maxSlots
      ensures Out() == EmitCall(old(Out()), arity, name)
    {
      var symbol := MethodSymbol(name);
      EmitShortArg(CODE_CALL_0 + arity, symbol);
    }

    // ----- Infix operators -----

    // [left] has been compiled from [start]; the next token extends it.
    method Infix(canAssign: bool, ghost left: Expr, ghost start: Output)
      requires !hasError && toks != [] && InfixPrecedence(toks[0]) != NONE
      requires Out() == AfterExpr(start, localNames, left) && AcceptsExpr(start.tables, localNames, left)
      modifies `toks, `code, `constants, `methods, `globals, `numSlots, `maxSlots, `hasError
      ensures CompiledExpr(ParseInfix(canAssign, left, old(toks)), start)
      decreases |toks|, 0
    {
      hide ParseInfix, AfterExpr, AcceptsExpr;
      ghost var all := toks;
      var t := toks[0];
      NextToken();
      IgnoreNewlines();
      match t
      case Operator(op) => InfixOp(canAssign, left, start, all, op);
      case AmpAmp => Logical(canAssign, left, start, all, CODE_AND, LOGICAL_AND);
      case PipePipe => Logical(canAssign, left, start, all, CODE_OR, LOGICAL_OR);
      case Question => Conditional(canAssign, left, start, all);
      case Dot => Call(canAssign, left, start, all);
      case _ =>
    }

    method InfixOp(ghost canAssign: bool, ghost left: Expr, ghost start: Output, ghost all: seq<Token>, op: BinaryOp)
      requires !hasError && all != [] && toks == SkipLines(all[1..]) && all[0] == Operator(op)
      requires Out() == AfterExpr(start, localNames, left) && AcceptsExpr(start.tables, localNames, left)
      modifies `toks, `code, `constants, `methods, `globals, `numSlots, `maxSlots, `hasError
      ensures CompiledExpr(ParseInfix(canAssign, left, all), start)
      decreases |toks|, 4
    {
      hide ParseInfix, Syntax.ParsePrecedence, AfterExpr, AcceptsExpr, BinaryName, SkipLines, OpPrecedence;
      ParseOperator(canAssign, left, all, op);
      ghost var right := Syntax.ParsePrecedence(OpPrecedence(op) + 1, toks);
      AfterTables(start, localNames, left);
      ParsePrecedence(OpPrecedence(op) + 1);
      if right.Ok? {
        AcceptsTwo(start.tables, localNames, Binary(op, left, right.value), left, right.value, BinaryName(op));
      }
      if hasError { return; }
      CallMethod(1, BinaryName(op));
      EmitBinary(start, localNames, Binary(op, left, right.value), left, right.value, BinaryName(op));
    }

    // "&&" and "||": the jump skips the right operand.
    method Logical(
        ghost canAssign: bool, ghost left: Expr, ghost start: Output, ghost all: seq<Token>, op: byte, p: int)
      requires !hasError && all != [] && toks == SkipLines(all[1..])
      requires (all[0] == AmpAmp && op == CODE_AND && p == LOGICAL_AND)
               || (all[0] == PipePipe && op == CODE_OR && p == LOGICAL_OR)
      requires Out() == AfterExpr(start, localNames, left) && AcceptsExpr(start.tables, localNames, left)
      modifies `toks, `code, `constants, `methods, `globals, `numSlots, `maxSlots, `hasError
      ensures CompiledExpr(ParseInfix(canAssign, left, all), start)
      decreases |toks|, 4
    {
      hide ParseInfix, Syntax.ParsePrecedence, AfterExpr, AcceptsExpr, SkipLines, Emission.EmitJump, SizeExpr,
           Emission.PatchJump;
      ParseLogical(canAssign, left, all);
      ghost var right := Syntax.ParsePrecedence(p, toks);
      AfterTables(start, localNames, left);
      var jump := EmitJump(op);
      ghost var u1 := Out();
      JumpKeepsTables(AfterExpr(start, localNames, left), op);
      ParsePrecedence(p);
      if right.Ok? {
        ghost var e := if op == CODE_AND then And(left, right.value) else Or(left, right.value);
        AcceptsLogical(start.tables, localNames, e, op, left, right.value);
        EmitLogical(start, localNames, e, op, left, right.value);
        AfterLength(u1, localNames, right.value);
      }
      if hasError { return; }
      PatchJump(jump);
    }

    method Conditional(ghost canAssign: bool, ghost left: Expr, ghost start: Output, ghost all: seq<Token>)
      requires !hasError && all != [] && toks == SkipLines(all[1..]) && all[0] == Question
      requires Out() == AfterExpr(start, localNames, left) && AcceptsExpr(start.tables, localNames, left)
      modifies `toks, `code, `constants, `methods, `globals, `numSlots, `maxSlots, `hasError
      ensures CompiledExpr(ParseInfix(canAssign, left, all), start)
      decreases |toks|, 4
    {
      hide ParseInfix, Syntax.ParsePrecedence, AfterExpr, AcceptsExpr, SkipLines, Emission.EmitJump, SizeExpr,
           Emission.PatchJump;
      ghost var yes := Syntax.ParsePrecedence(CONDITIONAL, toks);
      ParseCond(canAssign, left, all);
      AfterTables(start, localNames, left);
      var ifJump := EmitJump(CODE_JUMP_IF);
      JumpKeepsTables(AfterExpr(start, localNames, left), CODE_JUMP_IF);
      ParsePrecedence(CONDITIONAL);
      if hasError {
        if yes.Ok? { CondRejects(start.tables, localNames, left, yes.value); }
        return;
      }
      Consume(Colon);
      if hasError { return; }
      IgnoreNewlines();
      ElseBranch(left, start, yes.value, ifJump);
    }

    // The rest of a conditional whose then branch is [yes].
    method ElseBranch(ghost left: Expr, ghost start: Output, ghost yes: Expr, ifJump: nat)
      requires !hasError && AcceptsExpr(start.tables, localNames, left)
               && AcceptsExpr(GrowExpr(start.tables, localNames, left), localNames, yes)
      requires var u1 := Emission.EmitJump(AfterExpr(start, localNames, left), CODE_JUMP_IF);
               ifJump + 2 == |u1.code| && Out() == AfterExpr(u1, localNames, yes)
      modifies `toks, `code, `constants, `methods, `globals, `numSlots, `maxSlots, `hasError
      ensures var no := Syntax.ParsePrecedence(ASSIGNMENT, old(toks));
              CompiledExpr(if no.Ok? then Ok(Cond(left, yes, no.value), no.rest) else Fail, start)
      decreases |toks|, 3
    {
      hide Syntax.ParsePrecedence, AfterExpr, AcceptsExpr, Emission.EmitJump, SizeExpr, Emission.PatchJump;
      ghost var names, u1, no := localNames, Emission.EmitJump(AfterExpr(start, localNames, left), CODE_JUMP_IF),
          Syntax.ParsePrecedence(ASSIGNMENT, toks);
      AfterTables(start, names, left);
      JumpKeepsTables(AfterExpr(start, names, left), CODE_JUMP_IF);
      AfterTables(u1, names, yes);
      AfterLength(u1, names, yes);
      var elseJump := EmitJump(CODE_JUMP);
      JumpKeepsTables(AfterExpr(u1, names, yes), CODE_JUMP);
      PatchJump(ifJump);
      ghost var u3 := Out();
      PatchKeepsTables(Emission.EmitJump(AfterExpr(u1, names, yes), CODE_JUMP), ifJump);
      if no.Ok? {
        CondAccepts(start.tables, names, left, yes, no.value);
        AfterLength(u3, names, no.value);
        EmitCond(start, names, left, yes, no.value);
      }
      if hasError { return; }
      ParsePrecedence(ASSIGNMENT);
      if hasError { return; }
      PatchJump(elseJump);
    }

    // A getter, or a setter if the expression may be assigned to.
    method Call(canAssign: bool, ghost left: Expr, ghost start: Output, ghost all: seq<Token>)
      requires !hasError && all != [] && toks == SkipLines(all[1..]) && all[0] == Dot
      requires Out() == AfterExpr(start, localNames, left) && AcceptsExpr(start.tables, localNames, left)
      modifies `toks, `code, `constants, `methods, `globals, `numSlots, `maxSlots, `hasError
      ensures CompiledExpr(ParseInfix(canAssign, left, all), start)
      decreases |toks|, 4
    {
      hide ParseInfix, Syntax.ParsePrecedence, AfterExpr, AcceptsExpr, SkipLines, LineBeforeDot, EmitCall;
      ParseDot(canAssign, left, all);
      if toks == [] || !toks[0].Name? {
        hasError := true;
        return;
      }
      var name := toks[0].name;
      NextToken();
      if |name| > MAX_METHOD_NAME {
        LongName(canAssign, left, all, start.tables, localNames);
        hasError := true;
        return;
      }
      var assigns := false;
      if canAssign { assigns := Match(Equal); }
      if assigns {
        Setter(canAssign, left, start, all, name);
      } else if toks != [] && (toks[0] == LeftParen || toks[0] == LeftBrace) {
        hasError := true; // calls with argument lists are not part of this model
      } else {
        CallMethod(0, name);
        AllowLineBeforeDot();
        EmitUnary(start, localNames, Get(left, name), left, name);
        AcceptsGet(start.tables, localNames, left, name);
      }
    }

    // The rest of an assignment to the property [name] of [left].
    method Setter(canAssign: bool, ghost left: Expr, ghost start: Output, ghost all: seq<Token>, name: string)
      requires !hasError && all != [] && all[0] == Dot && canAssign
      requires var after := SkipLines(all[1..]);
               |after| >= 2 && after[0] == Syntax.Name(name) && after[1] == Equal && toks == after[2..]
      requires |name| <= MAX_METHOD_NAME
      requires Out() == AfterExpr(start, localNames, left) && AcceptsExpr(start.tables, localNames, left)
      modifies `toks, `code, `constants, `methods, `globals, `numSlots, `maxSlots, `hasError
      ensures CompiledExpr(ParseInfix(canAssign, left, all), start)
      decreases |toks|, 4
    {
      hide Syntax.ParsePrecedence, AfterExpr, AcceptsExpr, SkipLines, SetterName, ParseInfix;
      ParseSetter(canAssign, left, all, name);
      IgnoreNewlines();
      AfterTables(start, localNames, left);
      ghost var rhs := Syntax.ParsePrecedence(LOWEST, toks);
      ParsePrecedence(LOWEST);
      if rhs.Ok? {
        AcceptsTwo(start.tables, localNames, Set(left, name, rhs.value), left, rhs.value, SetterName(name));
      }
      if hasError { return; }
      CallMethod(1, SetterName(name));
      EmitBinary(start, localNames, Set(left, name, rhs.value), left, rhs.value, SetterName(name));
    }

    // ----- Statements -----

    // As CompiledExpr, for a statement compiled in the scope [at]. [over] says whether
    // the locals had been overrun before it.
    ghost predicate CompiledStmt(r: Parsed<Stmt>, before: Output, at: Scope, over: bool)
      reads this
    {
      && (!hasError <==> r.Ok? && Accepts(before.tables, at, r.value))
      && (!hasError ==> overrun == (over || Overruns(at.names, r.value)))
      && (!hasError ==>
             toks == r.rest && Out() == AfterStmt(before, at.names, LoopAt(at), r.value)
                 && Here() == ScopeAfter(at, r.value))
    }

    ghost predicate Ready()
      reads this
    {
      !hasError && Proper(Here()) && numSlots <= maxSlots && (loop.Within? ==> loop.start < |code|)
    }

    method Statement()
      requires Ready()
      modifies this
      ensures CompiledStmt(ParseStatement(old(toks)), old(Out()), old(Here()), old(overrun))
      decreases |toks|, 5
    {
      hide Overruns, ParseStatement, AfterStmt, Accepts, ScopeAfter, Proper;
      ghost var all := toks;
      if toks == [] {
        ParseNothing();
        hasError := true;
        return;
      }
      var t := toks[0];
      match t
      case Break => NextToken(); Escape(all, t);
      case Continue => NextToken(); Escape(all, t);
      case For => NextToken(); ForStatement(all);
      case If => NextToken(); IfStatement(all);
      case Return => NextToken(); ReturnStatement(all);
      case While => NextToken(); WhileStatement(all);
      case LeftBrace => NextToken(); BlockStatement(all);
      case _ => ExpressionStatement();
    }

    // Pops the locals at depth [depth] or deeper, which stay in scope.
    method DiscardLocals(depth: int) returns (popped: nat)
      requires |localNames| == |localDepths|
      modifies `code
      ensures popped == |localNames| - Below(localDepths, depth)
      ensures Out() == Discard(old(Out()), popped)
    {
      var local := |localNames| - 1;
      ghost var n := 0;
      assert localDepths[..local + 1] == localDepths;
      while local >= 0 && localDepths[local] >= depth
        invariant -1 <= local < |localNames| && n == |localNames| - 1 - local
        invariant Below(localDepths[..local + 1], depth) == Below(localDepths, depth)
        invariant code == old(code) + Pops(n)
      {
        assert localDepths[..local + 1][..local] == localDepths[..local];
        PopsSnoc(old(code), n);
        EmitByte(CODE_POP);
        n := n + 1;
        local := local - 1;
      }
      popped := |localNames| - local - 1;
    }

    method PopScope()
      requires |localNames| == |localDepths|
      modifies `code, `localNames, `localDepths, `numSlots, `scopeDepth
      ensures var n := Below(old(localDepths), old(scopeDepth));
              && localNames == old(localNames)[..n] && localDepths == old(localDepths)[..n]
              && Out() == Discard(old(Out()), |old(localNames)| - n).(slots := old(numSlots) - (|old(localNames)| - n))
      ensures scopeDepth == old(scopeDepth) - 1
    {
      var popped := DiscardLocals(scopeDepth);
      localNames := localNames[..|localNames| - popped];
      localDepths := localDepths[..|localDepths| - popped];
      numSlots := numSlots - popped;
      scopeDepth := scopeDepth - 1;
    }

    // "break" and "continue".
    method Escape(ghost all: seq<Token>, t: Token)
      requires Ready() && all != [] && toks == all[1..] && all[0] == t && (t == Break || t == Continue)
      modifies this
      ensures CompiledStmt(ParseStatement(all), old(Out()), old(Here()), old(overrun))
    {
      hide Overruns, ParseStatement, AfterStmt, Accepts, Emission.EmitJump, Emit, Short, LoopAt, ScopeAfter, Below,
           Proper, Discard;
      ghost var start, at := Out(), Here();
      ProperLengths(at);
      ParseEscape(all);
      EscapeIs(start, at, if t == Break then BreakLoop else ContinueLoop);
      if loop.NoLoop? {
        hasError := true;
        return;
      }
      var popped := DiscardLocals(loop.scopeDepth + 1);
      if t == Break {
        var jump := EmitJump(CODE_END);
      } else {
        DiscardIs(start, popped);
        var loopOffset := |code| - loop.start + 2;
        EmitShortArg(CODE_LOOP, loopOffset);
      }
    }

    method ReturnStatement(ghost all: seq<Token>)
      requires Ready() && all != [] && toks == all[1..] && all[0] == Return
      modifies this
      ensures CompiledStmt(ParseStatement(all), old(Out()), old(Here()), old(overrun))
      decreases |toks|, 4
    {
      hide Overruns, ParseStatement, AfterStmt, Accepts, AfterExpr, AcceptsExpr, Emit, ParseExpression;
      ghost var start, at := Out(), Here();
      ghost var e := ParseExpression(toks);
      ParseReturn(all);
      if toks != [] && toks[0] == Line {
        EmitOp(CODE_NULL);
        EmitLit(start, at.names, Null);
        AcceptsLit(start.tables, at.names, Null);
        GiveIs(start, at, Lit(Null));
      } else {
        Expression();
        if e.Ok? {
          GiveIs(start, at, e.value);
        }
        if hasError { return; }
      }
      EmitOp(CODE_RETURN);
    }

    method ExpressionStatement()
      requires Ready() && toks != [] && !StartsStatement(toks[0])
      modifies this
      ensures CompiledStmt(ParseStatement(old(toks)), old(Out()), old(Here()), old(overrun))
      decreases |toks|, 4
    {
      hide Overruns, ParseStatement, AfterStmt, Accepts, AfterExpr, AcceptsExpr, Emit, ParseExpression;
      ghost var start, at := Out(), Here();
      ghost var e := ParseExpression(toks);
      ParseEvaluate(toks);
      Expression();
      if e.Ok? {
        EvaluateIs(start, at, e.value);
      }
      if hasError { return; }
      EmitOp(CODE_POP);
    }

    // ----- Conditionals -----

    // A parenthesised condition.
    method Condition()
      requires !hasError
      modifies `toks, `code, `constants, `methods, `globals, `numSlots, `maxSlots, `hasError
      ensures CompiledExpr(ParseCondition(old(toks)), old(Out()))
      decreases |toks|, 4
    {
      hide ParseExpression, AfterExpr, AcceptsExpr;
      Consume(LeftParen);
      if hasError { return; }
      Expression();
      if hasError { return; }
      Consume(RightParen);
    }

    method IfStatement(ghost all: seq<Token>)
      requires Ready() && all != [] && toks == all[1..] && all[0] == If
      modifies this
      ensures CompiledStmt(ParseStatement(all), old(Out()), old(Here()), old(overrun))
      decreases |toks|, 7
    {
      hide Overruns, ParseStatement, ParseCondition, AfterStmt, Accepts, AfterExpr, AcceptsExpr, Proper, LoopAt,
           ScopeAfter;
      ghost var start, at := Out(), Here();
      ghost var c := ParseCondition(toks);
      ProperLengths(at);
      ParseIf(all);
      Condition();
      if hasError {
        if c.Ok? { IfRejects(start.tables, at, c.value); }
        return;
      }
      ThenClause(start, c.value);
    }

    // The rest of an if statement, after its condition.
    method ThenClause(ghost start: Output, ghost c: Expr)
      requires !hasError && Proper(Here()) && (loop.Within? ==> loop.start < |start.code|)
      requires Out() == AfterExpr(start, localNames, c) && AcceptsExpr(start.tables, localNames, c)
      modifies this
      ensures CompiledStmt(ParseThen(c, old(toks)), start, old(Here()), old(overrun))
      decreases |toks|, 6
    {
      hide Overruns, ParseStatement, AfterStmt, Accepts, AfterExpr, AcceptsExpr, Emission.EmitJump, Emission.PatchJump,
           Proper, SizeStmt, LoopAt, ScopeAfter;
      ghost var at := Here();
      ProperLengths(at);
      AfterTables(start, at.names, c);
      JumpKeepsTables(AfterExpr(start, at.names, c), CODE_JUMP_IF);
      HighEnough(start, at.names, c, CODE_JUMP_IF);
      var ifJump := EmitJump(CODE_JUMP_IF);
      ghost var u1, yes := Out(), ParseStatement(toks);
      Statement();
      if hasError {
        if yes.Ok? { YesRejects(start.tables, at, c, yes.value); }
        return;
      }
      ScopeKept(at, yes.value);
      var hasElse := Match(Else);
      if hasElse {
        ElseClause(start, at, c, yes.value, ifJump, old(overrun));
      } else {
        EndIf(start, at, c, yes.value, ifJump, old(overrun));
      }
    }

    // The end of an if statement without "else".
    method EndIf(ghost start: Output, ghost at: Scope, ghost c: Expr, ghost yes: Stmt, ifJump: nat, ghost over: bool)
      requires overrun == (over || Overruns(at.names, yes))
      requires Proper(at) && !hasError && Here() == at
      requires AcceptsExpr(start.tables, at.names, c) && Accepts(GrowExpr(start.tables, at.names, c), at, yes)
      requires var u1 := Emission.EmitJump(AfterExpr(start, at.names, c), CODE_JUMP_IF);
               ifJump + 2 == |u1.code| && Out() == AfterStmt(u1, at.names, LoopAt(at), yes)
      modifies `code, `hasError
      ensures CompiledStmt(Ok(IfThen(c, yes), old(toks)), start, at, over)
    {
      hide Overruns, ParseStatement, AfterStmt, Accepts, AfterExpr, AcceptsExpr, Emission.EmitJump, Emission.PatchJump,
           Proper, SizeStmt, LoopAt, ScopeAfter;
      ghost var u1 := Emission.EmitJump(AfterExpr(start, at.names, c), CODE_JUMP_IF);
      ProperLengths(at);
      NestedOverruns(at.names, c, yes, Skip);
      AcceptsIf(start.tables, at, c, yes, Skip);
      ScopeKept(at, IfThen(c, yes));
      EmitIfThen(start, at.names, LoopAt(at), c, yes);
      AfterStmtLength(u1, at.names, LoopAt(at), yes);
      PatchJump(ifJump);
    }

    // The rest of an if statement, after "else".
    method ElseClause(
        ghost start: Output, ghost at: Scope, ghost c: Expr, ghost yes: Stmt, ifJump: nat, ghost over: bool)
      requires overrun == (over || Overruns(at.names, yes))
      requires Proper(at) && !hasError && Here() == at && (at.loop.Within? ==> at.loop.start < |start.code|)
      requires AcceptsExpr(start.tables, at.names, c) && Accepts(GrowExpr(start.tables, at.names, c), at, yes)
               && IsStatement(yes)
      requires var u1 := Emission.EmitJump(AfterExpr(start, at.names, c), CODE_JUMP_IF);
               ifJump + 2 == |u1.code| && u1.slots <= u1.high && Out() == AfterStmt(u1, at.names, LoopAt(at), yes)
      modifies this
      ensures var no := ParseStatement(old(toks));
              CompiledStmt(if no.Ok? then Ok(IfElse(c, yes, no.value), no.rest) else Fail, start, at, over)
      decreases |toks|, 6
    {
      hide Overruns, ParseStatement, AfterStmt, Accepts, AfterExpr, AcceptsExpr, Emission.EmitJump, Emission.PatchJump,
           Proper, SizeStmt, GrowStmt, LoopAt, ScopeAfter;
      ProperLengths(at);
      ghost var names, lp, no := at.names, LoopAt(at), ParseStatement(toks);
      ghost var u1 := Emission.EmitJump(AfterExpr(start, names, c), CODE_JUMP_IF);
      AfterTables(start, names, c);
      HighEnough(start, names, c, CODE_JUMP_IF);
      JumpKeepsTables(AfterExpr(start, names, c), CODE_JUMP_IF);
      AfterStmtLength(u1, names, lp, yes);
      HighEnoughStmt(u1, names, lp, yes, CODE_JUMP);
      JumpKeepsTables(AfterStmt(u1, names, lp, yes), CODE_JUMP);
      var elseJump := EmitJump(CODE_JUMP);
      ghost var u2 := Out();
      PatchKeepsTables(u2, ifJump);
      PatchJump(ifJump);
      ghost var u3 := Out();
      if no.Ok? {
        NestedOverruns(at.names, c, yes, no.value);
        AcceptsIf(start.tables, at, c, yes, no.value);
        ScopeKept(at, IfElse(c, yes, no.value));
        AfterStmtLength(u3, names, lp, no.value);
        EmitIfElse(start, names, lp, c, yes, no.value);
      }
      if hasError { return; }
      Statement();
      if hasError { return; }
      ScopeKept(at, no.value);
      PatchJump(elseJump);
    }

    // ----- Blocks -----

    ghost predicate CompiledBody(r: Parsed<Body>, isExpression: bool, before: Output, at: Scope, over: bool)
      reads this
    {
      match r
      case Fail => hasError
      case Ok(Result(e), rest) =>
        && (!hasError <==> AcceptsExpr(before.tables, at.names, e))
        && (!hasError ==>
               isExpression && toks == rest && Out() == AfterExpr(before, at.names, e) && Here() == at
                   && overrun == over)
      case Ok(Statements(s), rest) =>
        && (!hasError <==> Accepts(before.tables, at, s))
        && (!hasError ==>
              && !isExpression && toks == rest && Out() == AfterStmt(before, at.names, LoopAt(at), s)
                 && Here() == ScopeAfter(at, s)
              && overrun == (over || Overruns(at.names, s)))
    }

    // A block body, after its "{". The result says whether its value is left on the
    // stack.
    method FinishBlock() returns (isExpression: bool)
      requires Ready() && Deeper(Here())
      modifies this
      ensures CompiledBody(ParseBody(old(toks)), isExpression, old(Out()), old(Here()), old(overrun))
      decreases |toks|, 4
    {
      hide Overruns, ParseExpression, ParseDefinitions, AfterStmt, Accepts, AfterExpr, AcceptsExpr, Proper, LoopAt,
           SkipLines;
      ghost var start, at := Out(), Here();
      ProperLengths(at);
      SimpleOverruns(at.names);
      AcceptsSkip(start.tables, at);
      EmitSkip(start, at.names, LoopAt(at));
      isExpression := false;
      var empty := Match(RightBrace);
      if empty { return; }
      if toks == [] || toks[0] != Line {
        Expression();
        if hasError { return; }
        Consume(RightBrace);
        isExpression := true;
        return;
      }
      SkipsOne(toks);
      IgnoreNewlines();
      empty := Match(RightBrace);
      if empty { return; }
      Definitions();
    }

    method BlockStatement(ghost all: seq<Token>)
      requires Ready() && all != [] && toks == all[1..] && all[0] == LeftBrace
      modifies this
      ensures CompiledStmt(ParseStatement(all), old(Out()), old(Here()), old(overrun))
      decreases |toks|, 5
    {
      hide Overruns, ParseStatement, ParseBody, AfterStmt, Accepts, AfterExpr, AcceptsExpr, LoopAt, Proper, Emit,
           ScopeAfter, Declared, DepthsAfter, Below, Discard;
      ghost var start, at := Out(), Here();
      ghost var inner := at.(depth := at.depth + 1);
      ghost var body := ParseBody(toks);
      ParseBraces(all);
      ProperDeeper(at);
      scopeDepth := scopeDepth + 1;
      var isExpression := FinishBlock();
      if body.Ok? {
        ghost var s := if body.value.Result? then Evaluate(body.value.e) else body.value.s;
        BlockIs(start, at, s);
        if body.value.Result? {
          EvaluateIs(start, inner, body.value.e);
        }
      }
      if hasError { return; }
      if isExpression { EmitOp(CODE_POP); }
      PopScope();
    }

    // One or more definitions, each ended by newlines, and the closing "}".
    method Definitions()
      requires Ready() && Deeper(Here())
      modifies this
      ensures CompiledStmt(ParseDefinitions(old(toks)), old(Out()), old(Here()), old(overrun))
      decreases |toks|, 7
    {
      hide Overruns, ParseDefinition, ParseDefinitions, AfterStmt, Accepts, LoopAt, ScopeAfter, Proper, SkipLines,
           Deeper, Chain, Sofar;
      ghost var all, start, at := toks, Out(), Here();
      ghost var done: seq<Stmt> := [];
      ghost var total := Skip;
      var more := true;
      SofarNone(all, start, at, overrun);
      while more
        invariant more ==> Ready() && Deeper(Here()) && |toks| <= |all|
        invariant more ==> Sofar(done, all, toks, start, at, old(overrun), Out(), Here(), overrun)
        invariant !more ==> !hasError && Accepts(start.tables, at, total)
                            && Out() == AfterStmt(start, at.names, LoopAt(at), total) && Here() == ScopeAfter(at, total)
                            && overrun == (old(overrun) || Overruns(at.names, total))
        invariant !more ==>
                    ParseDefinitions(all) == if toks != [] && toks[0] == RightBrace then Ok(total, toks[1..]) else Fail
        decreases |toks|, more
      {
        ghost var before, here, left, sofar := Out(), Here(), toks, overrun;
        ghost var d := ParseDefinition(toks);
        SofarStep(done, all, left, start, at, old(overrun), before, here, sofar);
        DefinitionLine();
        if hasError { return; }
        if toks != [] && toks[0] != RightBrace && toks[0] != Eof {
          SofarMore(done, all, left, start, at, old(overrun), before, here, sofar);
          done := done + [d.value];
        } else {
          SofarEnd(done, all, left, start, at, old(overrun), before, here, sofar);
          total := Chain(done, d.value);
          more := false;
        }
      }
      Consume(RightBrace);
    }

    // One definition, and the newlines that end it.
    method DefinitionLine()
      requires Ready() && Deeper(Here())
      modifies this
      ensures var d := ParseDefinition(old(toks));
              && (!hasError <==>
                     d.Ok? && Accepts(old(Out()).tables, old(Here()), d.value) && d.rest != [] && d.rest[0] == Line)
              && (!hasError ==>
                    && toks == SkipLines(d.rest[1..]) && |toks| < |old(toks)| && Ready() && Deeper(Here())
                    && Out() == AfterStmt(old(Out()), old(Here()).names, LoopAt(old(Here())), d.value)
                    && Here() == ScopeAfter(old(Here()), d.value)
                    && overrun == (old(overrun) || Overruns(old(Here()).names, d.value)))
      decreases |toks|, 6, 1
    {
      hide Overruns, ParseDefinition, AfterStmt, Accepts, LoopAt, ScopeAfter, Proper, SkipLines, Deeper;
      ghost var before, here, d := Out(), Here(), ParseDefinition(toks);
      Definition();
      if hasError { return; }
      Consume(Line);
      if hasError { return; }
      IgnoreNewlines();
      StillProper(here, before, d.value);
    }

    method Definition()
      requires Ready() && Deeper(Here())
      modifies this
      ensures CompiledStmt(ParseDefinition(old(toks)), old(Out()), old(Here()), old(overrun))
      decreases |toks|, 6, 0
    {
      hide Overruns, ParseStatement, ParseExpression, AfterStmt, Accepts, LoopAt, ScopeAfter, Proper;
      if toks != [] && toks[0] == Var {
        ghost var all := toks;
        NextToken();
        VariableDefinition(all);
      } else {
        Statement();
      }
    }

    // A local is not in scope in its own initializer.
    method VariableDefinition(ghost all: seq<Token>)
      requires Ready() && all != [] && toks == all[1..] && all[0] == Var
      modifies this
      ensures CompiledStmt(ParseDefinition(all), old(Out()), old(Here()), old(overrun))
      decreases |toks|, 5
    {
      hide Overruns, ParseDefinition, ParseExpression, AfterStmt, Accepts, AfterExpr, AcceptsExpr, LoopAt, ScopeAfter,
           Proper, Redeclares, SkipLines, Emit;
      ghost var start, at := Out(), Here();
      ProperLengths(at);
      ParseVar(all);
      if toks == [] || !toks[0].Name? {
        hasError := true;
        return;
      }
      var x := toks[0].name;
      NextToken();
      ghost var init := ParseInitializer(toks);
      Initializer();
      if init.Ok? {
        DeclareIs(start, at, init.value, x);
      }
      if hasError { return; }
      DeclareVariable(x);
    }

    // The optional initializer of a variable.
    method Initializer()
      requires !hasError
      modifies `toks, `code, `constants, `methods, `globals, `numSlots, `maxSlots, `hasError
      ensures CompiledExpr(ParseInitializer(old(toks)), old(Out()))
      decreases |toks|, 4
    {
      hide ParseExpression, AfterExpr, AcceptsExpr, SkipLines, Emit;
      ghost var start := Out();
      var initialized := Match(Equal);
      if initialized {
        IgnoreNewlines();
        Expression();
      } else {
        EmitOp(CODE_NULL);
        EmitLit(start, localNames, Null);
        AcceptsLit(start.tables, localNames, Null);
      }
    }

    method DeclareVariable(x: string)
      requires !hasError && |localNames| == |localDepths|
      modifies `localNames, `localDepths, `hasError, `overrun
      ensures hasError <==>
                || |x| > MAX_VARIABLE_NAME || Redeclares(old(localNames), old(localDepths), scopeDepth, x)
                || |old(localNames)| == MAX_LOCALS
      ensures !hasError ==> overrun == (old(overrun) || |old(localNames)| >= MAX_LOCALS)
      ensures !hasError ==> localNames == old(localNames) + [x] && localDepths == old(localDepths) + [scopeDepth]
    {
      if |x| > MAX_VARIABLE_NAME {
        hasError := true;
        return;
      }
      var i := |localNames| - 1;
      assert localDepths[..i + 1] == localDepths;
      while i >= 0 && localDepths[i] >= scopeDepth
        invariant -1 <= i < |localNames|
        invariant Below(localDepths[..i + 1], scopeDepth) == Below(localDepths, scopeDepth)
        invariant forall j :: i < j < |localNames| ==> localNames[j] != x
        invariant Below(localDepths, scopeDepth) <= i + 1
      {
        assert localDepths[..i + 1][..i] == localDepths[..i];
        if localNames[i] == x {
          hasError := true;
          return;
        }
        i := i - 1;
      }
      if |localNames| == MAX_LOCALS {
        hasError := true;
        return;
      }
      AddLocal(x);
    }

    // Nothing keeps the local inside the array: past its end, it overwrites what the
    // original stores there, and the model only records that.
    method AddLocal(x: string)
      modifies `localNames, `localDepths, `overrun
      ensures overrun == (old(overrun) || |old(localNames)| >= MAX_LOCALS)
      ensures localNames == old(localNames) + [x] && localDepths == old(localDepths) + [scopeDepth]
    {
      if |localNames| >= MAX_LOCALS { overrun := true; }
      localNames := localNames + [x];
      localDepths := localDepths + [scopeDepth];
    }

    // ----- Loops -----

    method StartLoop()
      modifies `loop
      ensures loop == Within(|code| - 1, 0, 0, scopeDepth, old(loop))
    {
      loop := Within(|code| - 1, 0, 0, scopeDepth, loop);
    }

    // The jump that leaves the loop.
    method TestExitLoop()
      requires loop.Within?
      modifies `code, `numSlots, `maxSlots, `loop
      ensures Out() == Emission.EmitJump(old(Out()), CODE_JUMP_IF) && |code| == |old(code)| + 3
      ensures loop == old(loop).(exitJump := |old(code)| + 1)
    {
      var exitJump := EmitJump(CODE_JUMP_IF);
      loop := loop.(exitJump := exitJump);
    }

    // Ends the innermost loop: jumps back to its start, patches its test, and turns
    // its placeholders into jumps to the end.
    method EndLoop(ghost done: Output)
      requires loop.Within? && 0 <= loop.start + 1
      requires EndsLoop(Out(), loop.start + 1, loop.exitJump + 2, loop.body, upvalueCounts, done)
      modifies `code, `numSlots, `maxSlots, `hasError, `loop
      ensures Out() == done && loop == old(loop).enclosing
      ensures hasError == (old(hasError) || |old(code)| + 3 - (old(loop).exitJump + 2) > MAX_JUMP)
    {
      hide Emit, Emission.PatchJump, IsWalk, IsBreak, PatchBreaks, Stride, InstructionLength, BreakTooFar;
      ghost var start := Out();
      var loopOffset := |code| - loop.start + 2;
      EmitShortArg(CODE_LOOP, loopOffset);
      EmitLength(start, CODE_LOOP, loopOffset);
      PatchJump(loop.exitJump);
      TooFarExact(code[loop.body..], upvalueCounts, loop.body, |code|, MAX_JUMP);
      PatchBreakJumps(loop.body);
      loop := loop.enclosing;
    }

    // Visits the instructions from [body] on, and makes each placeholder a jump to
    // the end of the code.
    method PatchBreakJumps(body: nat)
      requires body <= |code| && IsWalk(code[body..], upvalueCounts)
      modifies `code, `hasError
      ensures Out() == PatchLoop(old(Out()), body, upvalueCounts)
      ensures hasError == (old(hasError) || BreakTooFar(old(code)[body..], upvalueCounts, body, |code|, MAX_JUMP))
    {
      hide BreakTooFar, IsWalk, PatchBreaks, InstructionLength, Short;
      ghost var end := |code|;
      ghost var final := code[..body] + PatchBreaks(code[body..], upvalueCounts, body, end);
      var i := body;
      while i < |code|
        invariant body <= i <= |code| == end && IsWalk(code[i..], upvalueCounts)
        invariant final == code[..i] + PatchBreaks(code[i..], upvalueCounts, i, end)
        invariant (hasError || BreakTooFar(code[i..], upvalueCounts, i, end, MAX_JUMP))
                  == (old(hasError) || BreakTooFar(old(code)[body..], upvalueCounts, body, end, MAX_JUMP))
      {
        WalkAt(code, upvalueCounts, i, end);
        if code[i] == CODE_END {
          ghost var before := code;
          code := code[i := CODE_JUMP];
          PatchJump(i + 1);
          PatchedBreak(before, i, end);
          i := i + 3;
        } else {
          i := i + InstructionLength(code[i..], upvalueCounts);
        }
      }
      WalkEnds(code, upvalueCounts, i, end);
    }

    method WhileStatement(ghost all: seq<Token>)
      requires Ready() && all != [] && toks == all[1..] && all[0] == While
      modifies this
      ensures CompiledStmt(ParseStatement(all), old(Out()), old(Here()), old(overrun))
      decreases |toks|, 7
    {
      hide Overruns, ParseStatement, ParseCondition, AfterStmt, Accepts, AfterExpr, AcceptsExpr, Proper, LoopAt,
           ScopeAfter, Emission.EmitJump, EndsLoop;
      ghost var start, at := Out(), Here();
      ghost var c := ParseCondition(toks);
      ProperLengths(at);
      ParseWhile(all);
      StartLoop();
      Condition();
      if hasError {
        if c.Ok? { IfRejects(start.tables, at, c.value); }
        return;
      }
      TestExitLoop();
      WhileBody(start, at, c.value);
    }

    // The body of a while statement that started at the end of [start], and the end
    // of the loop.
    method WhileBody(ghost start: Output, ghost at: Scope, ghost c: Expr)
      requires !hasError && Proper(at) && AcceptsExpr(start.tables, at.names, c)
      requires |code| >= 2 && Here() == at.(loop := Within(|start.code| - 1, |code| - 2, 0, at.depth, at.loop))
      requires Out() == Emission.EmitJump(AfterExpr(start, at.names, c), CODE_JUMP_IF)
      modifies this
      ensures var body := ParseStatement(old(toks));
              CompiledStmt(if body.Ok? then Ok(Loop(c, body.value), body.rest) else Fail, start, at, old(overrun))
      decreases |toks|, 6
    {
      hide Overruns, ParseStatement, AfterStmt, Accepts, AfterExpr, AcceptsExpr, Proper, LoopAt, ScopeAfter,
           Emission.EmitJump, EndsLoop, SizeStmt;
      ghost var u1, body := Out(), ParseStatement(toks);
      AfterTables(start, at.names, c);
      JumpKeepsTables(AfterExpr(start, at.names, c), CODE_JUMP_IF);
      HighEnough(start, at.names, c, CODE_JUMP_IF);
      loop := loop.(body := |code|);
      InLoop(at, at.depth, |start.code| - 1, |code| - 2, |code|);
      ghost var inner := Here();
      if body.Ok? { AcceptsLoop(start.tables, at, inner, c, body.value); }
      Statement();
      if hasError { return; }
      NestedOverruns(at.names, c, body.value, Skip);
      ScopeKept(inner, body.value);
      ScopeKept(at, Loop(c, body.value));
      AfterStmtLength(u1, at.names, LoopAt(inner), body.value);
      EmitWhile(start, at.names, LoopAt(at), c, body.value, upvalueCounts);
      EndLoop(AfterStmt(start, at.names, LoopAt(at), Loop(c, body.value)));
    }

    method ForStatement(ghost all: seq<Token>)
      requires Ready() && all != [] && toks == all[1..] && all[0] == For
      modifies this
      ensures CompiledStmt(ParseStatement(all), old(Out()), old(Here()), old(overrun))
      decreases |toks|, 7
    {
      hide Overruns, ParseStatement, ParseForHead, AfterStmt, Accepts, AfterExpr, AcceptsExpr, Proper, LoopAt,
           ScopeAfter, Emission.ForHead;
      ghost var start, at := Out(), Here();
      ghost var head := ParseForHead(toks);
      ProperLengths(at);
      ParseFor(all);
      scopeDepth := scopeDepth + 1;
      var x := ForHead();
      if hasError {
        if head.Ok? { ForRejects(start.tables, at, head.value.0, head.value.1); }
        return;
      }
      ForRest(start, at, x, head.value.1);
    }

    // The head of a for statement: declares the hidden locals. The name of the loop
    // variable is returned.
    method ForHead() returns (x: string)
      requires !hasError && |localNames| == |localDepths|
      modifies `toks, `code, `constants, `methods, `globals, `numSlots, `maxSlots, `hasError, `localNames, `localDepths,
               `overrun
      ensures var head := ParseForHead(old(toks));
              && (!hasError <==>
                     head.Ok? && AcceptsExpr(old(Out()).tables, old(localNames), head.value.1)
                         && |old(localNames)| + 2 <= MAX_LOCALS)
              && (!hasError ==>
                    && x == head.value.0 && toks == head.rest && overrun == old(overrun)
                    && Out() == Emission.ForHead(old(Out()), old(localNames), head.value.1)
                    && localNames == old(localNames) + [SEQ_LOCAL] + [ITER_LOCAL]
                    && localDepths == old(localDepths) + [scopeDepth] + [scopeDepth])
      decreases |toks|, 4
    {
      hide ParseForHead, ParseExpression, AfterExpr, AcceptsExpr, Emit, SkipLines;
      ParseHead(toks);
      x := ForVariable();
      if hasError { return; }
      Expression();
      if hasError { return; }
      HideLocals();
      if hasError { return; }
      Consume(RightParen);
    }

    // Declares the hidden locals of a for statement, whose sequence is on the stack.
    method HideLocals()
      requires !hasError
      modifies `code, `numSlots, `maxSlots, `hasError, `localNames, `localDepths, `overrun
      ensures hasError <==> |old(localNames)| + 2 > MAX_LOCALS
      ensures !hasError ==>
                && Out() == Emit(old(Out()), CODE_NULL, []) && overrun == old(overrun)
                && localNames == old(localNames) + [SEQ_LOCAL] + [ITER_LOCAL]
                && localDepths == old(localDepths) + [scopeDepth] + [scopeDepth]
    {
      if |localNames| + 2 > MAX_LOCALS {
        hasError := true;
        return;
      }
      AddLocal(SEQ_LOCAL);
      EmitOp(CODE_NULL);
      AddLocal(ITER_LOCAL);
    }

    // "(", the name of the loop variable, and "in".
    method ForVariable() returns (x: string)
      requires !hasError
      modifies `toks, `hasError
      ensures !hasError <==> |old(toks)| >= 3 && old(toks)[0] == LeftParen && old(toks)[1].Name? && old(toks)[2] == In
      ensures !hasError ==> x == old(toks)[1].name && toks == SkipLines(old(toks)[3..])
    {
      x := [];
      Consume(LeftParen);
      if hasError { return; }
      if toks == [] || !toks[0].Name? {
        hasError := true;
        return;
      }
      x := toks[0].name;
      NextToken();
      Consume(In);
      if hasError { return; }
      assert old(toks)[1..][1..][1..] == old(toks)[3..];
      IgnoreNewlines();
    }

    // The rest of a for statement, after its head.
    method ForRest(ghost start: Output, ghost at: Scope, x: string, ghost sequence: Expr)
      requires !hasError && Proper(at) && AcceptsExpr(start.tables, at.names, sequence) && |at.names| + 2 <= MAX_LOCALS
      requires Here()
               == Scope(at.names + [SEQ_LOCAL] + [ITER_LOCAL], at.depths + [at.depth + 1] + [at.depth + 1],
                  at.depth + 1, at.loop)
      requires Out() == Emission.ForHead(start, at.names, sequence)
      modifies this
      ensures var body := ParseStatement(old(toks));
              CompiledStmt(if body.Ok? then Ok(ForIn(x, sequence, body.value), body.rest) else Fail, start, at,
                  old(overrun))
      decreases |toks|, 8
    {
      hide Overruns, ParseStatement, AfterStmt, Accepts, AfterExpr, AcceptsExpr, Proper, LoopAt, ScopeAfter,
           Emission.EmitJump, EndsLoop, SizeStmt, Emission.ForHead, ForTest, EmitAdvance, EmitItem, Below;
      ghost var u1 := Out();
      var n := |localNames| - 2;
      StartLoop();
      Advance(n);
      TestExitLoop();
      Item(n);
      ForReadied(start, u1, at.names, sequence);
      TestLength(u1, n);
      ForItem(start, at, x, sequence, u1);
    }

    // Advances the iterator of a for statement whose hidden locals are in slots [n]
    // and [n + 1].
    method Advance(n: nat)
      modifies `code, `methods, `numSlots, `maxSlots
      ensures Out() == EmitAdvance(old(Out()), n)
    {
      hide EmitLoadLocal, EmitCall, Emit;
      LoadLocal(n);
      LoadLocal(n + 1);
      CallMethod(1, ITERATE);
      EmitByteArg(CODE_STORE_LOCAL, n + 1);
    }

    method Item(n: nat)
      modifies `code, `methods, `numSlots, `maxSlots
      ensures Out() == EmitItem(old(Out()), n)
    {
      hide EmitLoadLocal, EmitCall, Emit;
      LoadLocal(n);
      LoadLocal(n + 1);
      CallMethod(1, ITERATOR_VALUE);
    }

    // The body of a for statement and the end of its loop. [u1] is the output where
    // the loop starts.
    method ForItem(ghost start: Output, ghost at: Scope, x: string, ghost sequence: Expr, ghost u1: Output)
      requires !hasError && Proper(at) && AcceptsExpr(start.tables, at.names, sequence) && |at.names| + 2 <= MAX_LOCALS
      requires u1 == Emission.ForHead(start, at.names, sequence) && |ForTest(u1, |at.names|).code| >= 2
      requires Here()
               == Scope(at.names + [SEQ_LOCAL] + [ITER_LOCAL], at.depths + [at.depth + 1] + [at.depth + 1],
                  at.depth + 1,
                               Within(|u1.code| - 1, |ForTest(u1, |at.names|).code| - 2, 0, at.depth + 1, at.loop))
      requires Out() == EmitItem(ForTest(u1, |at.names|), |at.names|)
      modifies this
      ensures var body := ParseStatement(old(toks));
              CompiledStmt(if body.Ok? then Ok(ForIn(x, sequence, body.value), body.rest) else Fail, start, at,
                  old(overrun))
      decreases |toks|, 6
    {
      hide Overruns, ParseStatement, AfterStmt, Accepts, AfterExpr, AcceptsExpr, Proper, LoopAt, ScopeAfter,
           Emission.EmitJump, EndsLoop, SizeStmt, Emission.ForHead, ForTest, EmitItem, ForBody, Below, Discard,
               SizeForLoop, ItemOffset, ForTables, ForNames;
      ghost var body := ParseStatement(toks);
      scopeDepth := scopeDepth + 1;
      AddLocal(x);
      loop := loop.(body := |code|);
      ghost var inner := Here();
      ForScope(at, x, inner);
      ForReadied(start, u1, at.names, sequence);
      if body.Ok? { AcceptsFor(start.tables, at, inner, x, sequence, body.value); }
      Statement();
      if hasError { return; }
      ForOverruns(at.names, x, sequence, body.value);
      ScopeKept(inner, body.value);
      ScopeKept(at, ForIn(x, sequence, body.value));
      EndFor(start, at, x, sequence, u1, body.value);
    }

    // The end of a for statement: discards the loop variable, ends the loop, and
    // discards the hidden locals.
    method EndFor(
        ghost start: Output, ghost at: Scope, ghost x: string, ghost sequence: Expr, ghost u1: Output, ghost body: Stmt)
      requires !hasError && Proper(at) && u1 == Emission.ForHead(start, at.names, sequence)
      requires var exit, at1 := |ForTest(u1, |at.names|).code|, |EmitItem(ForTest(u1, |at.names|), |at.names|).code|;
               && exit >= 2
               && Here()
                  == Scope(at.names + [SEQ_LOCAL] + [ITER_LOCAL] + [x],
                     at.depths + [at.depth + 1] + [at.depth + 1] + [at.depth + 2],
                                  at.depth + 2, Within(|u1.code| - 1, exit - 2, at1, at.depth + 1, at.loop))
      requires Out()
               == AfterStmt(EmitItem(ForTest(u1, |at.names|), |at.names|), ForNames(at.names, x),
                  LoopInfo(|u1.code|, |at.names| + 2, Pending), body)
      modifies this
      ensures toks == old(toks) && overrun == old(overrun)
              && (hasError <==> SizeForLoop(at.names, x, body) - ItemOffset(at.names) > MAX_JUMP)
      ensures Out() == AfterStmt(start, at.names, LoopAt(at), ForIn(x, sequence, body)) && Here() == at
    {
      hide Overruns, AfterStmt, Proper, LoopAt, EndsLoop, Emission.ForHead, ForTest, EmitItem, ForBody, Below, Discard,
           SizeForLoop, ItemOffset, ForNames;
      ForScope(at, x, Here());
      ghost var done := EmitFor(start, at.names, LoopAt(at), x, sequence, body, upvalueCounts);
      ForBodyIs(u1, at.names, x, body);
      ForDistance(start, u1, at.names, x, sequence, body);
      PopScope();
      EndLoop(done);
      PopScope();
    }

    // ----- Functions -----

    // A compiler for a function in local scope whose receiver and parameters are in
    // the slots [names]. Only the receiver counts towards the slots used.
    constructor (
        source: seq<Token>, symbols: seq<string>, variables: seq<string>, names: seq<string>, functions: seq<nat>)
      requires names != []
      ensures toks == source && Here() == Scope(names, ParameterDepths(names), 0, NoLoop) && !hasError && !overrun
      ensures Out() == Output([], Tables([], symbols, variables), 1, 1) && upvalueCounts == functions
    {
      toks, code, constants, methods, globals := source, [], [], symbols, variables;
      upvalueCounts, numSlots, maxSlots := functions, 1, 1;
      localNames, localDepths, scopeDepth, loop, hasError, overrun := names, ParameterDepths(names), 0, NoLoop, false,
          false;
    }

    // The body of a function, after its "{", and the end of the function. The body
    // returns the value of its expression, or null.
    method FinishBody()
      requires Ready() && loop.NoLoop? && scopeDepth == 0 && code == [] && numSlots == maxSlots == 1
      modifies this
      ensures var r := ParseBody(old(toks));
              && (!hasError <==> r.Ok? && AcceptsBody(old(Out()).tables, old(Here()), r.value))
              && (!hasError ==>
                    && toks == r.rest && Out().tables == GrowBody(old(Out()).tables, old(localNames), r.value)
                    && code == GenBody(Out().tables, old(localNames), r.value)
                    && maxSlots == MaxSlots(old(localNames), r.value)
                    && overrun == (old(overrun) || (r.value.Statements? && Overruns(old(localNames), r.value.s))))
    {
      hide Overruns, ParseBody, AfterExpr, AfterStmt, Accepts, AcceptsExpr, Emit, LoopAt, Proper, GenBody, MaxSlots;
      ghost var start, at, r := Out(), Here(), ParseBody(toks);
      var isExpression := FinishBlock();
      if r.Ok? { BodyOutput(start, at, r.value); }
      if hasError { return; }
      if !isExpression { EmitOp(CODE_NULL); }
      EmitOp(CODE_RETURN);
      EmitOp(CODE_END);
    }
  }

  // The receiver is outside every scope.
  function ParameterDepths(names: seq<string>): (r: seq<int>)
    ensures |r| == |names|
    ensures forall i :: 0 <= i < |r| ==> r[i] == if i == 0 then -1 else 0
    decreases |names|
  {
    if |names| <= 1 then seq(|names|, i => -1) else ParameterDepths(names[..|names| - 1]) + [0]
  }

  predicate AcceptsBody(t: Tables, at: Scope, body: Body) {
    match body
    case Result(e) => AcceptsExpr(t, at.names, e)
    case Statements(s) => Accepts(t, at, s)
  }

  function GrowBody(t: Tables, names: seq<string>, body: Body): Tables {
    match body
    case Result(e) => GrowExpr(t, names, e)
    case Statements(s) => GrowStmt(t, names, s)
  }

  // The output of a body, after the instructions that end the function.
  lemma BodyOutput(u: Output, at: Scope, body: Body)
    requires u.code == [] && u.slots == u.high == 1 && at.loop.NoLoop?
    ensures var u1 := if body.Result? then AfterExpr(u, at.names, body.e)
            else AfterStmt(u, at.names, LoopAt(at), body.s);
            var u2 := if body.Result? then u1 else Emit(u1, CODE_NULL, []);
            var u3 := Emit(Emit(u2, CODE_RETURN, []), CODE_END, []);
            && u3.tables == GrowBody(u.tables, at.names, body) && u3.code == GenBody(u3.tables, at.names, body)
            && u3.high == MaxSlots(at.names, body)
  {
    hide AfterExpr, AfterStmt, Emit, GrowExpr, GrowStmt, GenExpr, GenStmt, NetExpr, NetStmt, PeakExpr, PeakStmt;
    var u1 := if body.Result? then AfterExpr(u, at.names, body.e) else AfterStmt(u, at.names, LoopAt(at), body.s);
    if body.Result? {
      AfterIs(u, at.names, body.e);
    } else {
      AfterStmtIs(u, at.names, LoopAt(at), body.s);
      EmitAfter(u1, CODE_NULL);
    }
    var u2 := if body.Result? then u1 else Emit(u1, CODE_NULL, []);
    EmitAfter(u2, CODE_RETURN);
    EmitAfter(Emit(u2, CODE_RETURN, []), CODE_END);
  }

  // ----- Loops -----

  lemma EmitLength(u: Output, op: byte, n: nat)
    ensures |Emit(u, op, Short(n)).code| == |u.code| + 3
  {
  }

  // One step of the walk over the code of a loop.
  lemma WalkAt(code: seq<byte>, upvalues: seq<nat>, i: nat, end: nat)
    requires i < |code| == end && IsWalk(code[i..], upvalues)
    ensures var n := if code[i] == CODE_END then 3 else InstructionLength(code[i..], upvalues);
            && i + n <= |code| && IsWalk(code[i + n..], upvalues)
            && BreakTooFar(code[i..], upvalues, i, end, MAX_JUMP)
               == ((code[i] == CODE_END && end - (i + 3) > MAX_JUMP)
                    || BreakTooFar(code[i + n..], upvalues, i + n, end, MAX_JUMP))
            && code[..i] + PatchBreaks(code[i..], upvalues, i, end)
               == (if code[i] == CODE_END then code[..i] + GenJump(CODE_JUMP, end - (i + 3)) else code[..i + n])
                  + PatchBreaks(code[i + n..], upvalues, i + n, end)
  {
    hide IsWalk, PatchBreaks, InstructionLength, GenJump;
    var n := Stride(code[i..], upvalues);
    WalkStep(code[i..], upvalues, i, end);
    assert code[i..][n..] == code[i + n..];
    assert code[..i] + code[i..][..n] == code[..i + n];
  }

  lemma WalkEnds(code: seq<byte>, upvalues: seq<nat>, i: nat, end: nat)
    requires i == |code| && IsWalk(code[i..], upvalues)
    ensures code[..i] + PatchBreaks(code[i..], upvalues, i, end) == code
            && !BreakTooFar(code[i..], upvalues, i, end, MAX_JUMP)
  {
  }

  // What patching one placeholder does to the code.
  lemma PatchedBreak(code: seq<byte>, i: nat, end: nat)
    requires i + 3 <= |code| == end
    ensures var jumped := code[i := CODE_JUMP];
            var patched := jumped[..i + 1] + Short(end - (i + 1) - 2) + jumped[i + 1 + 2..];
            && patched[..i + 3] == code[..i] + GenJump(CODE_JUMP, end - (i + 3))
            && patched[i + 3..] == code[i + 3..] && |patched| == |code|
  {
    hide Short;
  }

  lemma ParseWhile(all: seq<Token>)
    requires all != [] && all[0] == While
    ensures var c := ParseCondition(all[1..]);
            && (c.Fail? ==> ParseStatement(all) == Fail)
            && (c.Ok? ==> var body := ParseStatement(c.rest);
                          ParseStatement(all) == if body.Ok? then Ok(Loop(c.value, body.value), body.rest) else Fail)
  {
    hide ParseCondition, ParseExpression;
  }

  // The scope of the body of a loop that starts in [at], whose locals all stay.
  lemma InLoop(at: Scope, depth: int, start: int, exitJump: nat, body: nat)
    requires Proper(at) && depth == at.depth && start >= -1
    ensures var inner := at.(loop := Within(start, exitJump, body, depth, at.loop));
            Proper(inner) && LoopAt(inner) == LoopInfo(start + 1, |at.names|, Pending)
  {
    BelowAll(at.depths, depth + 1);
  }

  lemma AcceptsLoop(t: Tables, at: Scope, inner: Scope, c: Expr, body: Stmt)
    requires |at.names| == |at.depths| && inner.loop.Within? && inner == at.(loop := inner.loop)
    requires LoopAt(inner).locals == |at.names|
    ensures Accepts(t, at, Loop(c, body)) <==>
            && AcceptsExpr(t, at.names, c) && Accepts(GrowExpr(t, at.names, c), inner, body)
            && SizeStmt(at.names, |at.names|, body) + 3 <= MAX_JUMP
  {
    hide AcceptsExpr, GrowExpr, SizeStmt, LoopAt;
  }

  lemma ParseFor(all: seq<Token>)
    requires all != [] && all[0] == For
    ensures var head := ParseForHead(all[1..]);
            && (head.Fail? ==> ParseStatement(all) == Fail)
            && (head.Ok? ==> var body := ParseStatement(head.rest);
                             ParseStatement(all)
                             == if body.Ok? then Ok(ForIn(head.value.0, head.value.1, body.value), body.rest) else Fail)
  {
    hide ParseForHead, ParseExpression;
  }

  lemma ParseHead(toks: seq<Token>)
    ensures if |toks| < 3 || toks[0] != LeftParen || !toks[1].Name? || toks[2] != In then ParseForHead(toks) == Fail
            else
              var sequence := ParseExpression(SkipLines(toks[3..]));
              if sequence.Fail? || sequence.rest == [] || sequence.rest[0] != RightParen then ParseForHead(toks) == Fail
              else ParseForHead(toks) == Ok((toks[1].name, sequence.value), sequence.rest[1..])
  {
    hide ParseExpression, SkipLines;
  }

  // The scope of the body of a for statement.
  lemma ForScope(at: Scope, x: string, inner: Scope)
    requires Proper(at) && inner.loop.Within? && inner.loop.scopeDepth == at.depth + 1 && inner.loop.start >= -1
    requires inner.names == at.names + [SEQ_LOCAL] + [ITER_LOCAL] + [x] && inner.depth == at.depth + 2
    requires inner.depths == at.depths + [at.depth + 1] + [at.depth + 1] + [at.depth + 2]
    ensures Proper(inner) && LoopAt(inner) == LoopInfo(inner.loop.start + 1, |at.names| + 2, Pending)
    ensures inner.names == ForNames(at.names, x)
            && inner.depths == at.depths + [at.depth + 1, at.depth + 1] + [at.depth + 2]
    ensures Below(inner.depths, at.depth + 2) == |at.names| + 2
            && Below(inner.depths[..|at.names| + 2], at.depth + 1) == |at.names|
    ensures inner.names[..|at.names| + 2][..|at.names|] == at.names
            && inner.depths[..|at.names| + 2][..|at.names|] == at.depths
    ensures |inner.names| == |inner.depths| == |at.names| + 3
  {
    var n, d := |at.names|, at.depth;
    BelowAll(at.depths, d + 1);
    var two := at.depths + [d + 1] + [d + 1];
    assert inner.depths[..n + 2] == two && two[..n + 1] == at.depths + [d + 1] && two[..n + 1][..n] == at.depths;
    BelowAll(two, d + 2);
  }

  lemma ForReadied(u: Output, u1: Output, names: seq<string>, sequence: Expr)
    requires u1 == Emission.ForHead(u, names, sequence)
    ensures var u2 := EmitItem(ForTest(u1, |names|), |names|);
            && u2.slots <= u2.high && u2.tables == ForTables(u.tables, names, sequence)
            && |u1.code| <= |ForTest(u1, |names|).code| <= |u2.code|
  {
    hide *;
    ForUnfolds(u, u1, names, [], sequence, Skip);
    AfterIs(u, names, sequence);
    EmitAfter(AfterExpr(u, names, sequence), CODE_NULL);
    AdvancedIs(u1, |names|);
    JumpIs(EmitAdvance(u1, |names|), CODE_JUMP_IF);
    ItemIs(ForTest(u1, |names|), |names|);
    HigherMore(ForTest(u1, |names|).high, ForTest(u1, |names|).slots);
  }

  lemma HigherMore(high: int, slots: int)
    ensures slots + 1 <= Higher(high, slots + 2)
  {
  }

  lemma AcceptsFor(t: Tables, at: Scope, inner: Scope, x: string, sequence: Expr, body: Stmt)
    requires |at.names| == |at.depths| && inner.loop.Within? && LoopAt(inner).locals == |at.names| + 2
    requires inner.names == ForNames(at.names, x)
             && inner.depths == at.depths + [at.depth + 1, at.depth + 1] + [at.depth + 2]
    requires inner.depth == at.depth + 2
    ensures Accepts(t, at, ForIn(x, sequence, body)) <==>
            && AcceptsExpr(t, at.names, sequence) && |at.names| + 2 <= MAX_LOCALS
            && Accepts(ForTables(t, at.names, sequence), inner, body)
            && SizeForLoop(at.names, x, body) - ItemOffset(at.names) <= MAX_JUMP
  {
    hide AcceptsExpr, ForTables, SizeForLoop, ItemOffset, LoopAt, ForNames;
  }

  lemma ForBodyIs(u1: Output, names: seq<string>, x: string, body: Stmt)
    ensures var u3 := AfterStmt(EmitItem(ForTest(u1, |names|), |names|), ForNames(names, x),
            LoopInfo(|u1.code|, |names| + 2, Pending), body);
            ForBody(u1, names, x, body) == Discard(u3, 1).(slots := u3.slots - 1)
  {
    hide AfterStmt, EmitItem, ForTest, Discard;
  }

  // The distance of the jump that leaves the loop.
  lemma {:induction false} ForDistance(u: Output, u1: Output, names: seq<string>, x: string, sequence: Expr, body: Stmt)
    requires u1 == Emission.ForHead(u, names, sequence)
    ensures |ForTest(u1, |names|).code| == |u1.code| + ItemOffset(names)
    ensures |ForBody(u1, names, x, body).code| + 3 == |u1.code| + SizeForLoop(names, x, body)
  {
    hide *;
    var t := GrowStmt(ForTables(u.tables, names, sequence), ForNames(names, x), body);
    ForCodeIs(u, names, x, sequence, body);
    ForOffsets(t, names);
    LoopSizes(names, 0, sequence, body, x);
    StmtSize(t, ForNames(names, x), |u1.code| + BodyOffset(names), LoopInfo(|u1.code|, |names| + 2, Pending), body);
  }

  lemma ForRejects(t: Tables, at: Scope, x: string, sequence: Expr)
    requires |at.names| == |at.depths| && (!AcceptsExpr(t, at.names, sequence) || |at.names| + 2 > MAX_LOCALS)
    ensures forall body :: !Accepts(t, at, ForIn(x, sequence, body))
  {
    hide AcceptsExpr, ForTables, SizeForLoop, LoopAt, ForNames;
  }

  lemma TestLength(u: Output, n: nat)
    ensures ForTest(u, n) == Emission.EmitJump(EmitAdvance(u, n), CODE_JUMP_IF)
            && |ForTest(u, n).code| == |EmitAdvance(u, n).code| + 3
  {
    hide EmitAdvance;
  }

  // The innermost loop, if there is one, is around the scope and not its own.
  predicate Deeper(at: Scope) {
    at.loop.Within? ==> at.loop.scopeDepth < at.depth
  }

  lemma AcceptsSkip(t: Tables, at: Scope)
    requires |at.names| == |at.depths|
    ensures Accepts(t, at, Skip) && ScopeAfter(at, Skip) == at
  {
  }

  lemma SkipsOne(toks: seq<Token>)
    requires toks != [] && toks[0] == Line
    ensures |SkipLines(toks)| < |toks|
  {
  }

  lemma ProperDeeper(at: Scope)
    requires Proper(at)
    ensures Proper(at.(depth := at.depth + 1)) && Deeper(at.(depth := at.depth + 1))
    ensures LoopAt(at.(depth := at.depth + 1)) == LoopAt(at) && |at.names| == |at.depths|
  {
  }

  lemma ParseBraces(all: seq<Token>)
    requires all != [] && all[0] == LeftBrace
    ensures var body := ParseBody(all[1..]);
            && (body.Fail? ==> ParseStatement(all) == Fail)
            && (body.Ok? ==>
                  ParseStatement(all)
                      == Ok(Block(if body.value.Result? then Evaluate(body.value.e) else body.value.s), body.rest))
  {
    hide ParseBody;
  }

  lemma AcceptsBlock(t: Tables, at: Scope, s: Stmt)
    requires Proper(at)
    ensures Accepts(t, at, Block(s)) <==> Accepts(t, at.(depth := at.depth + 1), s)
  {
  }

  // Leaving the scope of a block discards exactly the locals declared in it.
  lemma BlockScope(at: Scope, s: Stmt)
    requires Proper(at)
    ensures var after := ScopeAfter(at.(depth := at.depth + 1), s);
            && Below(after.depths, at.depth + 1) == |at.names|
               && |after.names| == |after.depths| == |Declared(at.names, s)|
            && after.names[..|at.names|] == at.names && after.depths[..|at.names|] == at.depths
            && after.depth == at.depth + 1 && after.loop == at.loop && after.names == Declared(at.names, s)
  {
    hide Declared, DepthsAfter;
    DepthsGrow(at.names, at.depths, at.depth + 1, s, at.depth + 1);
    BelowAll(at.depths, at.depth + 1);
  }

  // A block compiles to its body in an inner scope, followed by the discarding of the
  // locals declared in it.
  lemma BlockIs(u: Output, at: Scope, s: Stmt)
    requires Proper(at)
    ensures Overruns(at.names, Block(s)) == Overruns(at.names, s)
    ensures Accepts(u.tables, at, Block(s)) <==> Accepts(u.tables, at.(depth := at.depth + 1), s)
    ensures ScopeAfter(at, Block(s)) == at
    ensures var after := ScopeAfter(at.(depth := at.depth + 1), s);
            var n := Below(after.depths, at.depth + 1);
            var u1 := AfterStmt(u, at.names, LoopAt(at), s);
            && n <= |after.names| == |after.depths| && after.names[..n] == at.names && after.depths[..n] == at.depths
            && after.depth == at.depth + 1 && after.loop == at.loop
            && Discard(u1, |after.names| - n).(slots := u1.slots - (|after.names| - n))
                 == AfterStmt(u, at.names, LoopAt(at), Block(s))
  {
    hide Overruns, AfterStmt, Accepts, LoopAt, Proper, ScopeAfter, Declared, DepthsAfter, Below, Discard;
    NestedOverruns(at.names, Lit(Null), s, Skip);
    AcceptsBlock(u.tables, at, s);
    EmitBlock(u, at.names, LoopAt(at), s);
    BlockScope(at, s);
    ScopeKept(at, Block(s));
  }

  lemma BelowAll(depths: seq<int>, limit: int)
    requires forall i :: 0 <= i < |depths| ==> depths[i] < limit
    ensures Below(depths, limit) == |depths|
  {
  }

  // ----- Sequences of definitions -----

  // The definitions [done], then [s].
  function Chain(done: seq<Stmt>, s: Stmt): Stmt {
    if done == [] then s else Seq(done[0], Chain(done[1..], s))
  }

  function Glue(done: seq<Stmt>, r: Parsed<Stmt>): Parsed<Stmt> {
    match r
    case Fail => Fail
    case Ok(s, rest) => Ok(Chain(done, s), rest)
  }

  lemma {:induction false} ChainMore(done: seq<Stmt>, x: Stmt, s: Stmt)
    ensures Chain(done + [x], s) == Chain(done, Seq(x, s))
    decreases |done|
  {
    if done == [] {
      assert (done + [x])[1..] == [];
    } else {
      assert (done + [x])[1..] == done[1..] + [x];
      ChainMore(done[1..], x, s);
    }
  }

  lemma GlueMore(done: seq<Stmt>, x: Stmt, r: Parsed<Stmt>)
    ensures Glue(done + [x], r) == Glue(done, if r.Ok? then Ok(Seq(x, r.value), r.rest) else Fail)
  {
    if r.Ok? { ChainMore(done, x, r.value); }
  }

  lemma DefinitionsStep(toks: seq<Token>)
    ensures var d := ParseDefinition(toks);
            && (d.Fail? || d.rest == [] || d.rest[0] != Line ==> ParseDefinitions(toks) == Fail)
            && (d.Ok? && d.rest != [] && d.rest[0] == Line ==>
                  var next := SkipLines(d.rest[1..]);
                  && (next != [] && next[0] == RightBrace ==> ParseDefinitions(toks) == Ok(d.value, next[1..]))
                  && (next == [] || next[0] == Eof ==> ParseDefinitions(toks) == Fail)
                  && (next == [] || next[0] != RightBrace ==>
                        var r := ParseDefinitions(next);
                        ParseDefinitions(toks) == if r.Ok? then Ok(Seq(d.value, r.value), r.rest) else Fail))
  {
    hide ParseDefinition;
    var d := ParseDefinition(toks);
    if d.Ok? && d.rest != [] && d.rest[0] == Line {
      var next := SkipLines(d.rest[1..]);
      if next == [] || next[0] == Eof { NoDefinition(next); }
    }
  }

  lemma NoDefinition(toks: seq<Token>)
    requires toks == [] || toks[0] == Eof
    ensures ParseDefinition(toks) == Fail && ParseDefinitions(toks) == Fail
  {
    NoStatement(toks);
    hide ParseStatement, ParseExpression;
  }

  lemma NoStatement(toks: seq<Token>)
    requires toks == [] || toks[0] == Eof
    ensures ParseStatement(toks) == Fail
  {
    assert ParsePrefix(true, toks) == Fail;
    hide ParsePrefix;
    assert Syntax.ParsePrecedence(LOWEST, toks) == Fail;
    hide Syntax.ParsePrecedence;
  }

  // Compiling [done] and then any [s], from [u] in the scope [at], is compiling [s]
  // from [u1] in the scope [at1].
  ghost predicate Prefixed(done: seq<Stmt>, u: Output, at: Scope, u1: Output, at1: Scope) {
    forall s {:trigger Chain(done, s)} ::
      && AfterStmt(u, at.names, LoopAt(at), Chain(done, s)) == AfterStmt(u1, at1.names, LoopAt(at1), s)
      && ScopeAfter(at, Chain(done, s)) == ScopeAfter(at1, s)
      && (Accepts(u.tables, at, Chain(done, s)) <==> Accepts(u1.tables, at1, s))
  }

  // The same for overruns.
  ghost predicate OverrunBy(done: seq<Stmt>, names: seq<string>, over: bool, names1: seq<string>, over1: bool) {
    forall s :: OverrunFor(done, names, over, names1, over1, s)
  }

  predicate OverrunFor(done: seq<Stmt>, names: seq<string>, over: bool, names1: seq<string>, over1: bool, s: Stmt) {
    (over || Overruns(names, Chain(done, s))) == (over1 || Overruns(names1, s))
  }

  lemma OverrunNone(names: seq<string>, over: bool)
    ensures OverrunBy([], names, over, names, over)
  {
    hide Overruns;
  }

  lemma OverrunUse(done: seq<Stmt>, names: seq<string>, over: bool, names1: seq<string>, over1: bool, s: Stmt)
    requires OverrunBy(done, names, over, names1, over1)
    ensures (over || Overruns(names, Chain(done, s))) == (over1 || Overruns(names1, s))
  {
    hide Overruns, Chain;
    assert OverrunFor(done, names, over, names1, over1, s);
  }

  lemma OverrunMore(done: seq<Stmt>, names: seq<string>, over: bool, names1: seq<string>, over1: bool, x: Stmt)
    requires OverrunBy(done, names, over, names1, over1)
    ensures OverrunBy(done + [x], names, over, Declared(names1, x), over1 || Overruns(names1, x))
  {
    hide Chain, Declared, Overruns;
    var more, names2, over2 := done + [x], Declared(names1, x), over1 || Overruns(names1, x);
    forall s ensures OverrunFor(more, names, over, names2, over2, s) {
      ChainMore(done, x, s);
      OverrunUse(done, names, over, names1, over1, Seq(x, s));
      NestedOverruns(names1, Lit(Null), x, s);
    }
  }

  lemma PrefixedNone(u: Output, at: Scope)
    ensures Prefixed([], u, at, u, at) && forall r :: Glue([], r) == r
  {
    hide AfterStmt, Accepts, ScopeAfter, LoopAt;
  }

  lemma PrefixedUse(done: seq<Stmt>, u: Output, at: Scope, u1: Output, at1: Scope, s: Stmt)
    requires Prefixed(done, u, at, u1, at1)
    ensures AfterStmt(u, at.names, LoopAt(at), Chain(done, s)) == AfterStmt(u1, at1.names, LoopAt(at1), s)
    ensures ScopeAfter(at, Chain(done, s)) == ScopeAfter(at1, s)
    ensures Accepts(u.tables, at, Chain(done, s)) <==> Accepts(u1.tables, at1, s)
  {
    hide AfterStmt, Accepts, ScopeAfter, LoopAt;
  }

  lemma AcceptsSeq(t: Tables, at: Scope, a: Stmt, b: Stmt)
    requires Proper(at) && Deeper(at)
    ensures Accepts(t, at, Seq(a, b)) <==> Accepts(t, at, a) && Accepts(GrowStmt(t, at.names, a), ScopeAfter(at, a), b)
    ensures ScopeAfter(at, Seq(a, b)) == ScopeAfter(ScopeAfter(at, a), b)
    ensures LoopAt(ScopeAfter(at, a)) == LoopAt(at)
  {
    SeqScope(at, a, b);
    SeqAccepted(t, at.names, at.depths, at.depth, at.loop.Within?, LoopAt(at).locals, a, b);
    hide AcceptsStmt, GrowStmt, Declared, DepthsAfter, LoopAt, Deeper;
  }

  lemma SeqScope(at: Scope, a: Stmt, b: Stmt)
    requires Proper(at) && Deeper(at)
    ensures ScopeAfter(at, Seq(a, b)) == ScopeAfter(ScopeAfter(at, a), b)
    ensures LoopAt(ScopeAfter(at, a)) == LoopAt(at) && |at.names| == |at.depths|
  {
    if at.loop.Within? { DepthsGrow(at.names, at.depths, at.depth, a, at.loop.scopeDepth + 1); }
  }

  lemma SeqAccepted(
      t: Tables, names: seq<string>, depths: seq<int>, d: int, looping: bool, kept: nat, a: Stmt, b: Stmt)
    requires |names| == |depths|
    ensures AcceptsStmt(t, names, depths, d, looping, kept, Seq(a, b)) <==>
              && AcceptsStmt(t, names, depths, d, looping, kept, a)
              && AcceptsStmt(GrowStmt(t, names, a), Declared(names, a), DepthsAfter(depths, d, a), d, looping, kept, b)
  {
    hide GrowStmt, Declared, DepthsAfter, Redeclares;
  }

  lemma PrefixedMore(done: seq<Stmt>, u: Output, at: Scope, u1: Output, at1: Scope, x: Stmt)
    requires Prefixed(done, u, at, u1, at1) && Proper(at1) && Deeper(at1) && Accepts(u1.tables, at1, x)
    ensures Prefixed(done + [x], u, at, AfterStmt(u1, at1.names, LoopAt(at1), x), ScopeAfter(at1, x))
  {
    hide AfterStmt, Accepts, ScopeAfter, LoopAt, Chain, Proper, Deeper, Prefixed;
    forall s ensures PrefixedFor(done + [x], u, at, AfterStmt(u1, at1.names, LoopAt(at1), x), ScopeAfter(at1, x), s) {
      ChainMore(done, x, s);
      PrefixedUse(done, u, at, u1, at1, Seq(x, s));
      AcceptsSeq(u1.tables, at1, x, s);
      ScopeNames(at1, x);
      AfterStmtLength(u1, at1.names, LoopAt(at1), x);
      EmitSeq(u1, at1.names, LoopAt(at1), x, s);
    }
    PrefixedAll(done + [x], u, at, AfterStmt(u1, at1.names, LoopAt(at1), x), ScopeAfter(at1, x));
  }

  ghost predicate PrefixedFor(done: seq<Stmt>, u: Output, at: Scope, u1: Output, at1: Scope, s: Stmt) {
    && AfterStmt(u, at.names, LoopAt(at), Chain(done, s)) == AfterStmt(u1, at1.names, LoopAt(at1), s)
    && ScopeAfter(at, Chain(done, s)) == ScopeAfter(at1, s)
    && (Accepts(u.tables, at, Chain(done, s)) <==> Accepts(u1.tables, at1, s))
  }

  lemma PrefixedAll(done: seq<Stmt>, u: Output, at: Scope, u1: Output, at1: Scope)
    requires forall s :: PrefixedFor(done, u, at, u1, at1, s)
    ensures Prefixed(done, u, at, u1, at1)
  {
    hide AfterStmt, Accepts, ScopeAfter, LoopAt, Chain;
    forall s ensures AfterStmt(u, at.names, LoopAt(at), Chain(done, s)) == AfterStmt(u1, at1.names, LoopAt(at1), s)
                     && ScopeAfter(at, Chain(done, s)) == ScopeAfter(at1, s)
                     && (Accepts(u.tables, at, Chain(done, s)) <==> Accepts(u1.tables, at1, s)) {
      assert PrefixedFor(done, u, at, u1, at1, s);
    }
  }

  lemma ScopeNames(at: Scope, s: Stmt)
    ensures ScopeAfter(at, s).names == Declared(at.names, s)
  {
  }

  // A rejected definition rejects every continuation.
  lemma PrefixedRejects(done: seq<Stmt>, u: Output, at: Scope, u1: Output, at1: Scope, x: Stmt, toks: seq<Token>)
    requires Prefixed(done, u, at, u1, at1) && Proper(at1) && Deeper(at1) && !Accepts(u1.tables, at1, x)
    requires ParseDefinition(toks).Ok? && ParseDefinition(toks).value == x
    ensures var r := Glue(done, ParseDefinitions(toks)); r.Fail? || !Accepts(u.tables, at, r.value)
  {
    hide AfterStmt, Accepts, ScopeAfter, LoopAt, Proper, Deeper, Prefixed, Chain, ParseDefinition, ParseDefinitions;
    DefinitionsStep(toks);
    PrefixedUse(done, u, at, u1, at1, x);
    var d := ParseDefinition(toks);
    if d.rest != [] && d.rest[0] == Line {
      var r := ParseDefinitions(SkipLines(d.rest[1..]));
      if r.Ok? {
        PrefixedUse(done, u, at, u1, at1, Seq(x, r.value));
        AcceptsSeq(u1.tables, at1, x, r.value);
      }
    }
  }

  lemma StillProper(at: Scope, u: Output, s: Stmt)
    requires Proper(at) && Deeper(at) && u.slots <= u.high && (at.loop.Within? ==> at.loop.start < |u.code|)
    ensures Proper(ScopeAfter(at, s)) && Deeper(ScopeAfter(at, s)) && ScopeAfter(at, s).loop == at.loop
    ensures var u1 := AfterStmt(u, at.names, LoopAt(at), s); u1.slots <= u1.high && |u1.code| >= |u.code|
  {
    hide AfterStmt;
    DepthsGrow(at.names, at.depths, at.depth, s, at.depth);
    AfterStmtLength(u, at.names, LoopAt(at), s);
  }

  // After the definitions [done], with [toks] left of [all].
  ghost predicate Sofar(
      done: seq<Stmt>, all: seq<Token>, toks: seq<Token>, u: Output, at: Scope, over: bool, u1: Output, at1: Scope,
          over1: bool) {
    && Prefixed(done, u, at, u1, at1) && OverrunBy(done, at.names, over, at1.names, over1)
    && ParseDefinitions(all) == Glue(done, ParseDefinitions(toks))
  }

  lemma SofarNone(all: seq<Token>, u: Output, at: Scope, over: bool)
    ensures Sofar([], all, all, u, at, over, u, at, over)
  {
    hide Prefixed, OverrunBy, ParseDefinitions, Glue;
    PrefixedNone(u, at);
    OverrunNone(at.names, over);
  }

  // A definition that does not parse, is not accepted, or is not ended.
  lemma SofarStep(
      done: seq<Stmt>, all: seq<Token>, toks: seq<Token>, u: Output, at: Scope, over: bool, u1: Output, at1: Scope,
          over1: bool)
    requires Sofar(done, all, toks, u, at, over, u1, at1, over1) && Proper(at1) && Deeper(at1)
    ensures var d, r := ParseDefinition(toks), ParseDefinitions(all);
            && (d.Fail? || d.rest == [] || d.rest[0] != Line ==> r.Fail?)
            && (d.Ok? && !Accepts(u1.tables, at1, d.value) ==> r.Fail? || !Accepts(u.tables, at, r.value))
  {
    hide Prefixed, OverrunBy, ParseDefinition, ParseDefinitions, Accepts, Proper, Deeper, SkipLines;
    DefinitionsStep(toks);
    var d := ParseDefinition(toks);
    if d.Ok? && !Accepts(u1.tables, at1, d.value) { PrefixedRejects(done, u, at, u1, at1, d.value, toks); }
  }

  lemma SofarMore(
      done: seq<Stmt>, all: seq<Token>, toks: seq<Token>, u: Output, at: Scope, over: bool, u1: Output, at1: Scope,
          over1: bool)
    requires Sofar(done, all, toks, u, at, over, u1, at1, over1) && Proper(at1) && Deeper(at1)
    requires var d := ParseDefinition(toks);
             d.Ok? && Accepts(u1.tables, at1, d.value) && d.rest != [] && d.rest[0] == Line
    requires var next := SkipLines(ParseDefinition(toks).rest[1..]); next != [] && next[0] != RightBrace
    ensures var d := ParseDefinition(toks);
            Sofar(done + [d.value], all, SkipLines(d.rest[1..]), u, at, over,
                  AfterStmt(u1, at1.names, LoopAt(at1), d.value), ScopeAfter(at1, d.value), over1
                      || Overruns(at1.names, d.value))
  {
    hide *;
    var d := ParseDefinition(toks);
    var next := SkipLines(d.rest[1..]);
    SofarParts(done, all, toks, u, at, over, u1, at1, over1);
    DefinitionsStep(toks);
    PrefixedMore(done, u, at, u1, at1, d.value);
    OverrunMore(done, at.names, over, at1.names, over1, d.value);
    ScopeNames(at1, d.value);
    GlueMore(done, d.value, ParseDefinitions(next));
    SofarParts(done + [d.value], all, next, u, at, over,
               AfterStmt(u1, at1.names, LoopAt(at1), d.value), ScopeAfter(at1, d.value), over1
                   || Overruns(at1.names, d.value));
  }

  lemma SofarParts(
      done: seq<Stmt>, all: seq<Token>, toks: seq<Token>, u: Output, at: Scope, over: bool, u1: Output, at1: Scope,
          over1: bool)
    ensures Sofar(done, all, toks, u, at, over, u1, at1, over1)
            <==> Prefixed(done, u, at, u1, at1) && OverrunBy(done, at.names, over, at1.names, over1)
                 && ParseDefinitions(all) == Glue(done, ParseDefinitions(toks))
  {
    hide Prefixed, OverrunBy, ParseDefinitions, Glue;
  }

  // The last definition.
  lemma SofarEnd(
      done: seq<Stmt>, all: seq<Token>, toks: seq<Token>, u: Output, at: Scope, over: bool, u1: Output, at1: Scope,
          over1: bool)
    requires Sofar(done, all, toks, u, at, over, u1, at1, over1)
    requires var d := ParseDefinition(toks);
             d.Ok? && Accepts(u1.tables, at1, d.value) && d.rest != [] && d.rest[0] == Line
    requires var next := SkipLines(ParseDefinition(toks).rest[1..]);
             next == [] || next[0] == RightBrace || next[0] == Eof
    ensures var d := ParseDefinition(toks);
            var total, next := Chain(done, d.value), SkipLines(d.rest[1..]);
            && Accepts(u.tables, at, total) && ScopeAfter(at, total) == ScopeAfter(at1, d.value)
            && AfterStmt(u, at.names, LoopAt(at), total) == AfterStmt(u1, at1.names, LoopAt(at1), d.value)
            && (over || Overruns(at.names, total)) == (over1 || Overruns(at1.names, d.value))
            && ParseDefinitions(all) == if next != [] && next[0] == RightBrace then Ok(total, next[1..]) else Fail
  {
    hide *;
    var d := ParseDefinition(toks);
    SofarParts(done, all, toks, u, at, over, u1, at1, over1);
    DefinitionsStep(toks);
    PrefixedUse(done, u, at, u1, at1, d.value);
    OverrunUse(done, at.names, over, at1.names, over1, d.value);
    GlueIs(done, d.value, SkipLines(d.rest[1..]));
  }

  lemma GlueIs(done: seq<Stmt>, s: Stmt, rest: seq<Token>)
    ensures Glue(done, Fail) == Fail && (rest != [] ==> Glue(done, Ok(s, rest[1..])) == Ok(Chain(done, s), rest[1..]))
  {
    hide Chain;
  }

  function ParseInitializer(toks: seq<Token>): Parsed<Expr> {
    if toks != [] && toks[0] == Equal then ParseExpression(SkipLines(toks[1..])) else Ok(Lit(Null), toks)
  }

  lemma ParseVar(all: seq<Token>)
    requires all != [] && all[0] == Var
    ensures if all[1..] == [] || !all[1].Name? then ParseDefinition(all) == Fail
            else
              var init := ParseInitializer(all[1..][1..]);
              ParseDefinition(all) == if init.Ok? then Ok(Declare(all[1].name, init.value), init.rest) else Fail
  {
    hide ParseExpression, ParseStatement, SkipLines;
    if |all| >= 2 { assert all[1..][1..] == all[2..]; }
    if |all| >= 3 { assert all[1..][1..][1..] == all[3..]; }
  }

  // The rest of an if statement, after its condition.
  function ParseThen(c: Expr, toks: seq<Token>): Parsed<Stmt> {
    var yes := ParseStatement(toks);
    if yes.Fail? then Fail
    else if yes.rest != [] && yes.rest[0] == Else then
      var no := ParseStatement(yes.rest[1..]);
      if no.Ok? then Ok(IfElse(c, yes.value, no.value), no.rest) else Fail
    else
      Ok(IfThen(c, yes.value), yes.rest)
  }

  lemma ParseIf(all: seq<Token>)
    requires all != [] && all[0] == If
    ensures var c := ParseCondition(all[1..]);
            ParseStatement(all) == if c.Ok? then ParseThen(c.value, c.rest) else Fail
  {
    hide ParseCondition, ParseExpression;
  }

  lemma AcceptsIf(t: Tables, at: Scope, c: Expr, yes: Stmt, no: Stmt)
    requires |at.names| == |at.depths|
    ensures var t1 := GrowExpr(t, at.names, c);
            var kept := LoopAt(at).locals;
            && (Accepts(t, at, IfThen(c, yes)) <==>
                  AcceptsExpr(t, at.names, c) && Accepts(t1, at, yes) && SizeStmt(at.names, kept, yes) <= MAX_JUMP)
            && (Accepts(t, at, IfElse(c, yes, no)) <==>
                  && AcceptsExpr(t, at.names, c) && Accepts(t1, at, yes)
                     && SizeStmt(at.names, kept, yes) + 3 <= MAX_JUMP
                  && Accepts(GrowStmt(t1, at.names, yes), at, no) && SizeStmt(at.names, kept, no) <= MAX_JUMP)
  {
    hide AcceptsExpr, GrowExpr, GrowStmt, SizeStmt, LoopAt;
  }

  lemma IfRejects(t: Tables, at: Scope, c: Expr)
    requires |at.names| == |at.depths| && !AcceptsExpr(t, at.names, c)
    ensures forall toks {:trigger ParseThen(c, toks)} :: ParseThen(c, toks).Ok? ==>
              !Accepts(t, at, ParseThen(c, toks).value)
    ensures forall yes :: !Accepts(t, at, IfThen(c, yes))
    ensures forall yes, no :: !Accepts(t, at, IfElse(c, yes, no))
    ensures forall body :: !Accepts(t, at, Loop(c, body))
  {
    hide AcceptsExpr, GrowExpr, GrowStmt, SizeStmt, LoopAt, ParseStatement;
  }

  lemma YesRejects(t: Tables, at: Scope, c: Expr, yes: Stmt)
    requires |at.names| == |at.depths| && !Accepts(GrowExpr(t, at.names, c), at, yes)
    ensures !Accepts(t, at, IfThen(c, yes)) && forall no :: !Accepts(t, at, IfElse(c, yes, no))
  {
    hide AcceptsExpr, GrowExpr, GrowStmt, SizeStmt, LoopAt;
  }

  lemma LoopIs(at: Scope)
    requires Proper(at)
    ensures at.loop.Within? ==>
              LoopAt(at) == LoopInfo(at.loop.start + 1, Below(at.depths, at.loop.scopeDepth + 1), Pending)
  {
  }

  lemma ProperLengths(at: Scope)
    requires Proper(at)
    ensures |at.names| == |at.depths|
  {
  }

  // A statement leaves the scope as it was.
  lemma ScopeKept(at: Scope, s: Stmt)
    requires IsStatement(s)
    ensures ScopeAfter(at, s) == at
  {
  }

  lemma AfterStmtLength(u: Output, names: seq<string>, loop: LoopInfo, s: Stmt)
    ensures |AfterStmt(u, names, loop, s).code| == |u.code| + SizeStmt(names, loop.locals, s)
    ensures AfterStmt(u, names, loop, s).tables == GrowStmt(u.tables, names, s)
    ensures u.slots <= u.high ==> AfterStmt(u, names, loop, s).slots <= AfterStmt(u, names, loop, s).high
  {
    hide GenStmt, GrowStmt, SizeStmt, NetStmt, PeakStmt;
    StmtSize(GrowStmt(u.tables, names, s), names, |u.code|, loop, s);
    assert NetStmt(names, s) <= PeakStmt(names, s);
  }

  lemma HighEnough(u: Output, names: seq<string>, e: Expr, op: byte)
    ensures var u1 := Emission.EmitJump(AfterExpr(u, names, e), op);
            u1.slots <= u1.high && |u1.code| == |u.code| + SizeExpr(names, e) + 3
  {
    hide GenExpr, GrowExpr, NetExpr, PeakExpr, SizeExpr;
  }

  lemma HighEnoughStmt(u: Output, names: seq<string>, loop: LoopInfo, s: Stmt, op: byte)
    ensures var u1 := Emission.EmitJump(AfterStmt(u, names, loop, s), op);
            u1.slots <= u1.high && |u1.code| == |u.code| + SizeStmt(names, loop.locals, s) + 3
  {
    hide AfterStmt, SizeStmt;
    AfterStmtLength(u, names, loop, s);
  }

  predicate StartsStatement(t: Token) {
    t.Break? || t.Continue? || t.For? || t.If? || t.Return? || t.While? || t.LeftBrace?
  }

  lemma {:induction false} PopsSnoc(code: seq<byte>, n: nat)
    ensures code + Pops(n) + [CODE_POP] == code + Pops(n + 1)
    decreases n
  {
    if n > 0 {
      PopsSnoc(code, n - 1);
      PopsSnoc([], n - 1);
      assert Pops(n) + [CODE_POP] == [CODE_POP] + (Pops(n - 1) + [CODE_POP]);
      assert [] + Pops(n - 1) == Pops(n - 1) && [] + Pops(n) == Pops(n);
    }
  }

  lemma ParseNothing()
    ensures ParseStatement([]) == Fail
  {
  }

  lemma ParseEscape(all: seq<Token>)
    requires all != []
    ensures all[0] == Break ==> ParseStatement(all) == Ok(BreakLoop, all[1..])
    ensures all[0] == Continue ==> ParseStatement(all) == Ok(ContinueLoop, all[1..])
  {
  }

  lemma ParseReturn(all: seq<Token>)
    requires all != [] && all[0] == Return
    ensures all[1..] != [] && all[1] == Line ==> ParseStatement(all) == Ok(Give(Lit(Null)), all[1..])
    ensures all[1..] == [] || all[1] != Line ==>
              var e := ParseExpression(all[1..]);
              ParseStatement(all) == if e.Ok? then Ok(Give(e.value), e.rest) else Fail
  {
    hide ParseExpression;
  }

  lemma ParseEvaluate(all: seq<Token>)
    requires all != [] && !StartsStatement(all[0])
    ensures var e := ParseExpression(all);
            ParseStatement(all) == if e.Ok? then Ok(Evaluate(e.value), e.rest) else Fail
  {
    hide ParseExpression;
  }

  lemma AcceptsEscape(t: Tables, at: Scope)
    requires |at.names| == |at.depths|
    ensures Accepts(t, at, BreakLoop) <==> at.loop.Within?
    ensures Accepts(t, at, ContinueLoop) <==> at.loop.Within?
  {
  }

  // What is accepted and emitted, and what happens to the scope.
  lemma EscapeIs(u: Output, at: Scope, s: Stmt)
    requires Proper(at) && u.slots <= u.high && (at.loop.Within? ==> at.loop.start < |u.code|)
    requires s.BreakLoop? || s.ContinueLoop?
    ensures Accepts(u.tables, at, s) <==> at.loop.Within?
    ensures ScopeAfter(at, s) == at && !Overruns(at.names, s)
    ensures at.loop.Within? ==>
              var u1 := Discard(u, |at.names| - Below(at.depths, at.loop.scopeDepth + 1));
              AfterStmt(u, at.names, LoopAt(at), s)
              == if s.BreakLoop? then Emission.EmitJump(u1, CODE_END)
                 else Emit(u1, CODE_LOOP, Short(|u1.code| + 3 - (at.loop.start + 1)))
  {
    hide AfterStmt, Emission.EmitJump, Emit, Short, Below, Discard, LoopAt;
    ProperLengths(at);
    SimpleOverruns(at.names);
    AcceptsEscape(u.tables, at);
    if at.loop.Within? {
      LoopIs(at);
      EmitEscape(u, at.names, LoopAt(at));
    }
  }

  lemma EvaluateIs(u: Output, at: Scope, e: Expr)
    requires |at.names| == |at.depths|
    ensures Accepts(u.tables, at, Evaluate(e)) <==> AcceptsExpr(u.tables, at.names, e)
    ensures AfterStmt(u, at.names, LoopAt(at), Evaluate(e)) == Emit(AfterExpr(u, at.names, e), CODE_POP, [])
    ensures ScopeAfter(at, Evaluate(e)) == at && !Overruns(at.names, Evaluate(e))
  {
    hide AcceptsExpr, AfterStmt, AfterExpr, Emit;
    EmitSimple(u, at.names, LoopAt(at), e, []);
  }

  lemma GiveIs(u: Output, at: Scope, e: Expr)
    requires |at.names| == |at.depths|
    ensures Accepts(u.tables, at, Give(e)) <==> AcceptsExpr(u.tables, at.names, e)
    ensures AfterStmt(u, at.names, LoopAt(at), Give(e)) == Emit(AfterExpr(u, at.names, e), CODE_RETURN, [])
    ensures ScopeAfter(at, Give(e)) == at && !Overruns(at.names, Give(e))
  {
    hide AcceptsExpr, AfterStmt, AfterExpr, Emit;
    EmitSimple(u, at.names, LoopAt(at), e, []);
  }

  lemma DeclareIs(u: Output, at: Scope, e: Expr, x: string)
    requires |at.names| == |at.depths|
    ensures Accepts(u.tables, at, Declare(x, e)) <==>
            AcceptsExpr(u.tables, at.names, e) && !Redeclares(at.names, at.depths, at.depth, x)
                && |at.names| != MAX_LOCALS && |x| <= MAX_VARIABLE_NAME
    ensures AfterStmt(u, at.names, LoopAt(at), Declare(x, e)) == AfterExpr(u, at.names, e)
    ensures ScopeAfter(at, Declare(x, e)) == at.(names := at.names + [x], depths := at.depths + [at.depth])
    ensures Overruns(at.names, Declare(x, e)) <==> |at.names| >= MAX_LOCALS
  {
    hide AcceptsExpr, AfterStmt, AfterExpr, Redeclares, Emit;
    EmitSimple(u, at.names, LoopAt(at), e, x);
  }

  lemma ParseSetter(canAssign: bool, left: Expr, all: seq<Token>, name: string)
    requires all != [] && all[0] == Dot && canAssign
    requires var after := SkipLines(all[1..]);
             |after| >= 2 && after[0] == Syntax.Name(name) && after[1] == Equal
    ensures var rhs := Syntax.ParsePrecedence(LOWEST, SkipLines(SkipLines(all[1..])[2..]));
            ParseInfix(canAssign, left, all) == if rhs.Ok? then Ok(Set(left, name, rhs.value), rhs.rest) else Fail
  {
    hide Syntax.ParsePrecedence, SkipLines;
    assert SkipLines(all[1..])[1..][1..] == SkipLines(all[1..])[2..];
  }

  // ----- The parser, one construct at a time -----

  lemma ParseGrouping(canAssign: bool, all: seq<Token>)
    requires all != [] && all[0] == LeftParen
    ensures var inner := Syntax.ParsePrecedence(LOWEST, all[1..]);
            ParsePrefix(canAssign, all)
            == if inner.Ok? && inner.rest != [] && inner.rest[0] == RightParen then Ok(inner.value, inner.rest[1..])
               else Fail
  {
    hide Syntax.ParsePrecedence;
  }

  lemma ParseLiteral(canAssign: bool, all: seq<Token>, v: Value)
    requires all != [] && all[0] == Literal(v)
    ensures ParsePrefix(canAssign, all) == Ok(Lit(v), all[1..])
  {
    hide Syntax.ParsePrecedence;
  }

  lemma ParseName(canAssign: bool, all: seq<Token>, x: string)
    requires all != [] && all[0] == Syntax.Name(x)
    ensures if canAssign && |all| >= 2 && all[1] == Equal then
              var rhs := Syntax.ParsePrecedence(LOWEST, all[1..][1..]);
              ParsePrefix(canAssign, all) == if rhs.Ok? then Ok(Assign(x, rhs.value), rhs.rest) else Fail
            else ParsePrefix(canAssign, all) == Ok(Variable(x), LineBeforeDot(all[1..]))
  {
    hide Syntax.ParsePrecedence, LineBeforeDot;
  }

  lemma ParseUnary(canAssign: bool, all: seq<Token>)
    requires all != [] && !all[0].LeftParen? && !all[0].Literal? && !all[0].Name?
    ensures var uop := PrefixOp(all[0]);
            var operand := Syntax.ParsePrecedence(CALL, SkipLines(all[1..]));
            ParsePrefix(canAssign, all)
            == if uop.Ok? && operand.Ok? then Ok(Expr.Unary(uop.value, operand.value), operand.rest) else Fail
  {
    hide Syntax.ParsePrecedence, SkipLines;
  }

  lemma ParseOperator(canAssign: bool, left: Expr, all: seq<Token>, op: BinaryOp)
    requires all != [] && all[0] == Operator(op)
    ensures var right := Syntax.ParsePrecedence(OpPrecedence(op) + 1, SkipLines(all[1..]));
            ParseInfix(canAssign, left, all) == if right.Ok? then Ok(Binary(op, left, right.value), right.rest)
                else Fail
  {
    hide Syntax.ParsePrecedence, SkipLines, OpPrecedence;
  }

  lemma ParseLogical(canAssign: bool, left: Expr, all: seq<Token>)
    requires all != []
    ensures all[0] == AmpAmp ==>
              var right := Syntax.ParsePrecedence(LOGICAL_AND, SkipLines(all[1..]));
              ParseInfix(canAssign, left, all) == if right.Ok? then Ok(And(left, right.value), right.rest) else Fail
    ensures all[0] == PipePipe ==>
              var right := Syntax.ParsePrecedence(LOGICAL_OR, SkipLines(all[1..]));
              ParseInfix(canAssign, left, all) == if right.Ok? then Ok(Or(left, right.value), right.rest) else Fail
  {
    hide Syntax.ParsePrecedence, SkipLines;
  }

  lemma ParseCond(canAssign: bool, left: Expr, all: seq<Token>)
    requires all != [] && all[0] == Question
    ensures var yes := Syntax.ParsePrecedence(CONDITIONAL, SkipLines(all[1..]));
            if yes.Fail? || yes.rest == [] || yes.rest[0] != Colon then ParseInfix(canAssign, left, all) == Fail
            else
              var no := Syntax.ParsePrecedence(ASSIGNMENT, SkipLines(yes.rest[1..]));
              ParseInfix(canAssign, left, all) == if no.Ok? then Ok(Cond(left, yes.value, no.value), no.rest) else Fail
  {
    hide Syntax.ParsePrecedence, SkipLines;
  }

  lemma ParseDot(canAssign: bool, left: Expr, all: seq<Token>)
    requires all != [] && all[0] == Dot
    ensures var after := SkipLines(all[1..]);
            if after == [] || !after[0].Name? then ParseInfix(canAssign, left, all) == Fail
            else
              var next := after[1..];
              (next != [] && (next[0] == LeftParen || next[0] == LeftBrace) ==>
                      ParseInfix(canAssign, left, all) == Fail)
              && (next == [] || (next[0] != LeftParen && next[0] != LeftBrace && !(canAssign && next[0] == Equal)) ==>
                    ParseInfix(canAssign, left, all) == Ok(Get(left, after[0].name), LineBeforeDot(next)))
  {
    hide Syntax.ParsePrecedence, SkipLines, LineBeforeDot;
  }

  // ----- Acceptance, one construct at a time -----

  lemma AcceptsLit(t: Tables, names: seq<string>, v: Value)
    ensures AcceptsExpr(t, names, Lit(v)) <==> Special(v) || v in t.consts || |t.consts| < MAX_CONSTANTS
  {
  }

  lemma AcceptsVariable(t: Tables, names: seq<string>, x: string)
    ensures AcceptsExpr(t, names, Variable(x)) <==> AcceptsName(t, names, x)
  {
    hide AcceptsName;
  }

  lemma AcceptsAssign(t: Tables, names: seq<string>, x: string, rhs: Expr)
    ensures AcceptsExpr(t, names, Assign(x, rhs))
            <==> AcceptsName(t, names, x) && AcceptsExpr(NeedName(t, names, x), names, rhs)
  {
    hide AcceptsName, NeedName;
  }

  lemma NameRejected(t: Tables, names: seq<string>, x: string)
    requires !AcceptsName(t, names, x)
    ensures forall rhs :: !AcceptsExpr(t, names, Assign(x, rhs))
  {
    hide AcceptsName, NeedName;
  }

  lemma AcceptsUnary(t: Tables, names: seq<string>, uop: UnaryOp, a: Expr)
    ensures AcceptsExpr(t, names, Expr.Unary(uop, a)) <==> AcceptsExpr(t, names, a)
  {
  }

  lemma PatchKeepsTables(u: Output, offset: nat)
    requires offset + 2 <= |u.code|
    ensures Emission.PatchJump(u, offset).tables == u.tables
  {
  }

  lemma AfterTables(u: Output, names: seq<string>, e: Expr)
    ensures AfterExpr(u, names, e).tables == GrowExpr(u.tables, names, e)
  {
  }

  lemma AfterLength(u: Output, names: seq<string>, e: Expr)
    ensures |AfterExpr(u, names, e).code| == |u.code| + SizeExpr(names, e)
  {
    hide GenExpr, GrowExpr, SizeExpr;
  }

  lemma JumpKeepsTables(u: Output, op: byte)
    ensures Emission.EmitJump(u, op).tables == u.tables
  {
  }

  lemma AcceptsTwo(t: Tables, names: seq<string>, e: Expr, a: Expr, b: Expr, name: string)
    requires IsCall2(e, a, b, name)
    ensures AcceptsExpr(t, names, e) <==>
              && AcceptsExpr(t, names, a) && AcceptsExpr(GrowExpr(t, names, a), names, b)
              && (e.Set? ==> |e.name| <= MAX_METHOD_NAME)
  {
    hide GrowExpr;
  }

  lemma AcceptsGet(t: Tables, names: seq<string>, a: Expr, name: string)
    ensures AcceptsExpr(t, names, Get(a, name)) <==> AcceptsExpr(t, names, a) && |name| <= MAX_METHOD_NAME
  {
    hide GrowExpr;
  }

  // A getter or setter whose name is too long.
  lemma LongName(canAssign: bool, left: Expr, all: seq<Token>, t: Tables, names: seq<string>)
    requires all != [] && all[0] == Dot
    requires var after := SkipLines(all[1..]); after != [] && after[0].Name? && |after[0].name| > MAX_METHOD_NAME
    ensures var r := ParseInfix(canAssign, left, all); r.Ok? ==> !AcceptsExpr(t, names, r.value)
  {
    hide Syntax.ParsePrecedence, SkipLines, LineBeforeDot, GrowExpr;
  }

  lemma AcceptsLogical(t: Tables, names: seq<string>, e: Expr, op: byte, a: Expr, b: Expr)
    requires IsLogical(e, op, a, b)
    ensures AcceptsExpr(t, names, e) <==>
            AcceptsExpr(t, names, a) && AcceptsExpr(GrowExpr(t, names, a), names, b) && SizeExpr(names, b) <= MAX_JUMP
  {
    hide GrowExpr, SizeExpr;
  }

  lemma CondAccepts(t: Tables, names: seq<string>, c: Expr, y: Expr, n: Expr)
    ensures AcceptsExpr(t, names, Cond(c, y, n)) <==>
            && AcceptsExpr(t, names, c) && AcceptsExpr(GrowExpr(t, names, c), names, y)
            && SizeExpr(names, y) + 3 <= MAX_JUMP
            && AcceptsExpr(GrowExpr(GrowExpr(t, names, c), names, y), names, n) && SizeExpr(names, n) <= MAX_JUMP
  {
    hide GrowExpr, SizeExpr;
  }

  lemma CondRejects(t: Tables, names: seq<string>, c: Expr, y: Expr)
    requires !AcceptsExpr(GrowExpr(t, names, c), names, y)
    ensures forall n :: !AcceptsExpr(t, names, Cond(c, y, n))
  {
    hide GrowExpr, SizeExpr;
  }

  lemma NotAccepted(t: Tables, names: seq<string>, p: int, left: Expr, toks: seq<Token>)
    requires !AcceptsExpr(t, names, left)
    ensures var r := ParseInfixes(p, left, toks); r.Fail? || !AcceptsExpr(t, names, r.value)
  {
    hide AcceptsExpr, ParseInfixes;
    var r := ParseInfixes(p, left, toks);
    if r.Ok? && AcceptsExpr(t, names, r.value) { AcceptsFirst(t, names, p, left, toks); }
  }

  method Find<T(==)>(s: seq<T>, x: T) returns (i: nat)
    ensures i == IndexOf(s, x)
  {
    i := 0;
    while i < |s|
      invariant i <= |s| && x !in s[..i]
    {
      if s[i] == x {
        IndexOfFirst(s, x, i);
        return;
      }
      i := i + 1;
    }
    assert s[..i] == s;
  }

  lemma {:induction false} IndexOfFirst<T>(s: seq<T>, x: T, i: nat)
    requires i < |s| && s[i] == x && x !in s[..i]
    ensures IndexOf(s, x) == i
    decreases i
  {
    if i > 0 {
      assert s[0] == s[..i][0] && s[..i][1..] == s[1..][..i - 1];
      IndexOfFirst(s[1..], x, i - 1);
    }
  }

  lemma IndexOfLast<T>(s: seq<T>, x: T)
    requires x !in s
    ensures IndexOf(s + [x], x) == |s|
  {
    assert (s + [x])[..|s|] == s;
    IndexOfFirst(s + [x], x, |s|);
  }
}
