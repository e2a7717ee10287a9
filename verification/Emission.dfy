/** What compiling a construct does to the output of the compiler: the code, the
    tables it indexes, and the count of stack slots. */
module Emission {
  import opened Syntax
  import opened Semantics
  import opened Bytes
  import opened Bytecode
  import opened CodeGen
  import opened SimulateExpr
  import opened SimulateStmt
  import opened Slots
  import opened LoopPatching
  import opened Sequences

  // ----- Tables that only grow -----

  function AddUnique<T(==)>(s: seq<T>, x: T): seq<T> {
    if x in s then s else s + [x]
  }

  predicate Extends(t: Tables, t': Tables) {
    t.consts <= t'.consts && t.methods <= t'.methods && t.globals <= t'.globals
  }

  function NeedMethod(t: Tables, name: string): Tables {
    t.(methods := AddUnique(t.methods, name))
  }

  function NeedName(t: Tables, names: seq<string>, x: string): Tables {
    if Innermost(names, x) >= 0 then t else t.(globals := AddUnique(t.globals, x))
  }

  predicate Special(v: Value) {
    v.Null? || v.False? || v.True?
  }

  function NeedConst(t: Tables, v: Value): Tables {
    if Special(v) then t else t.(consts := AddUnique(t.consts, v))
  }

  // The tables after compiling [e], in the order the compiler meets its parts.
  function GrowExpr(t: Tables, names: seq<string>, e: Expr): Tables
    decreases e, 1
  {
    match e
    case Lit(v) => NeedConst(t, v)
    case Variable(x) => NeedName(t, names, x)
    case Assign(x, rhs) => GrowExpr(NeedName(t, names, x), names, rhs)
    case Unary(uop, operand) => NeedMethod(GrowExpr(t, names, operand), UnaryName(uop))
    case Binary(op, l, r) => NeedMethod(GrowExpr(GrowExpr(t, names, l), names, r), BinaryName(op))
    case And(l, r) => GrowExpr(GrowExpr(t, names, l), names, r)
    case Or(l, r) => GrowExpr(GrowExpr(t, names, l), names, r)
    case Cond(c, y, n) => GrowCond(t, names, c, y, n)
    case Get(r, name) => NeedMethod(GrowExpr(t, names, r), name)
    case Set(r, name, rhs) => NeedMethod(GrowExpr(GrowExpr(t, names, r), names, rhs), SetterName(name))
  }

  function GrowCond(t: Tables, names: seq<string>, c: Expr, y: Expr, n: Expr): Tables
    decreases Cond(c, y, n), 0
  {
    GrowExpr(GrowExpr(GrowExpr(t, names, c), names, y), names, n)
  }

  function GrowStmt(t: Tables, names: seq<string>, s: Stmt): Tables
    decreases s
  {
    match s
    case Skip => t
    case Seq(first, rest) => GrowStmt(GrowStmt(t, names, first), Declared(names, first), rest)
    case Evaluate(e) => GrowExpr(t, names, e)
    case Declare(_, init) => GrowExpr(t, names, init)
    case Block(body) => GrowStmt(t, names, body)
    case IfThen(c, yes) => GrowStmt(GrowExpr(t, names, c), names, yes)
    case IfElse(c, yes, no) => GrowStmt(GrowStmt(GrowExpr(t, names, c), names, yes), names, no)
    case Loop(c, body) => GrowStmt(GrowExpr(t, names, c), names, body)
    case ForIn(x, sequence, body) =>
      GrowStmt(NeedMethod(NeedMethod(GrowExpr(t, names, sequence), ITERATE), ITERATOR_VALUE), ForNames(names, x), body)
    case BreakLoop => t
    case ContinueLoop => t
    case Give(e) => GrowExpr(t, names, e)
  }

  lemma {:induction false} IndexOfPrefix<T>(s: seq<T>, s': seq<T>, x: T)
    requires s <= s' && x in s
    ensures IndexOf(s', x) == IndexOf(s, x) && x in s'
    decreases |s|
  {
    if s[0] != x {
      assert s[1..] <= s'[1..];
      IndexOfPrefix(s[1..], s'[1..], x);
    }
  }

  lemma StableMethod(t: Tables, t': Tables, arity: nat, name: string)
    requires Extends(t, t') && name in t.methods && arity <= 16
    ensures name in t'.methods && GenCall(t', arity, name) == GenCall(t, arity, name)
  {
    IndexOfPrefix(t.methods, t'.methods, name);
  }

  lemma StableName(t: Tables, t': Tables, names: seq<string>, x: string)
    requires Extends(t, t') && CoversName(t, names, x)
    ensures CoversName(t', names, x) && GenLoad(t', names, x) == GenLoad(t, names, x)
            && GenStore(t', names, x) == GenStore(t, names, x)
  {
    if Innermost(names, x) < 0 { IndexOfPrefix(t.globals, t'.globals, x); }
  }

  lemma StableLiteral(t: Tables, t': Tables, v: Value)
    requires Extends(t, t') && (Special(v) || v in t.consts)
    ensures (Special(v) || v in t'.consts) && GenLiteral(t', v) == GenLiteral(t, v)
  {
    if !Special(v) { IndexOfPrefix(t.consts, t'.consts, v); }
  }

  // Code compiled against some tables is still right when they have grown.
  lemma {:induction false} StableExpr(t: Tables, t': Tables, names: seq<string>, e: Expr)
    requires Extends(t, t') && CoversExpr(t, names, e)
    ensures CoversExpr(t', names, e) && GenExpr(t', names, e) == GenExpr(t, names, e)
    decreases e
  {
    hide Extends, GenCall, GenLoad, GenStore, GenLiteral, GenJump, CoversName, SizeExpr, BinaryName, UnaryName,
         SetterName;
    match e
    case Lit(v) => StableLiteral(t, t', v);
    case Variable(x) => StableName(t, t', names, x);
    case Assign(x, rhs) => StableName(t, t', names, x); StableExpr(t, t', names, rhs);
    case Unary(uop, operand) => StableExpr(t, t', names, operand); StableMethod(t, t', 0, UnaryName(uop));
    case Binary(op, l, r) => StableExpr(t, t', names, l);
        StableExpr(t, t', names, r); StableMethod(t, t', 1, BinaryName(op));
    case And(l, r) => StableExpr(t, t', names, l); StableExpr(t, t', names, r);
    case Or(l, r) => StableExpr(t, t', names, l); StableExpr(t, t', names, r);
    case Cond(c, y, n) => StableExpr(t, t', names, c); StableExpr(t, t', names, y); StableExpr(t, t', names, n);
    case Get(r, name) => StableExpr(t, t', names, r); StableMethod(t, t', 0, name);
    case Set(r, name, rhs) => StableExpr(t, t', names, r);
        StableExpr(t, t', names, rhs); StableMethod(t, t', 1, SetterName(name));
  }

  lemma ExtendsTrans(t: Tables, t': Tables, t'': Tables)
    requires Extends(t, t') && Extends(t', t'')
    ensures Extends(t, t'')
  {
  }

  lemma NeedExtends(t: Tables, names: seq<string>, x: string, v: Value)
    ensures Extends(t, t) && Extends(t, NeedMethod(t, x)) && x in NeedMethod(t, x).methods
    ensures Extends(t, NeedName(t, names, x)) && CoversName(NeedName(t, names, x), names, x)
    ensures Extends(t, NeedConst(t, v)) && (Special(v) || v in NeedConst(t, v).consts)
  {
  }

  // The tables grow, and cover everything the code refers to.
  lemma {:induction false} GrowCovers(t: Tables, names: seq<string>, e: Expr)
    ensures Extends(t, GrowExpr(t, names, e)) && CoversExpr(GrowExpr(t, names, e), names, e)
    decreases e, 1
  {
    hide Extends, NeedName, NeedMethod, NeedConst, CoversName, GenExpr, BinaryName, UnaryName, SetterName, Special;
    var t' := GrowExpr(t, names, e);
    match e
    case Lit(v) => NeedExtends(t, names, [], v); LitCovered(t', names, v);
    case Variable(x) => NeedExtends(t, names, x, Null);
    case Assign(x, rhs) =>
      var t1 := NeedName(t, names, x);
      NeedExtends(t, names, x, Null);
      GrowCovers(t1, names, rhs);
      ExtendsTrans(t, t1, t');
      StableName(t1, t', names, x);
    case Unary(uop, operand) => GrowCall(t, names, operand, UnaryName(uop));
    case Get(r, name) => GrowCall(t, names, r, name);
    case Binary(op, l, r) => GrowTwo(e, t, names, l, r, BinaryName(op));
    case Set(r, name, rhs) => GrowTwo(e, t, names, r, rhs, SetterName(name));
    case And(l, r) => GrowTwo(e, t, names, l, r, []);
    case Or(l, r) => GrowTwo(e, t, names, l, r, []);
    case Cond(c, y, n) =>
      GrowTwo(e, t, names, c, y, []);
      CondGrow(t, names, c, y, n);
      var t2 := GrowExpr(GrowExpr(t, names, c), names, y);
      GrowCovers(t2, names, n);
      ExtendsTrans(t, t2, t');
      StableExpr(t2, t', names, c);
      StableExpr(t2, t', names, y);
  }

  lemma LitCovered(t: Tables, names: seq<string>, v: Value)
    requires Special(v) || v in t.consts
    ensures CoversExpr(t, names, Lit(v))
  {
  }

  lemma {:induction false} GrowCall(t: Tables, names: seq<string>, a: Expr, name: string)
    ensures var t' := NeedMethod(GrowExpr(t, names, a), name);
            Extends(t, t') && CoversExpr(t', names, a) && name in t'.methods
    decreases a, 2
  {
    hide *;
    var t1 := GrowExpr(t, names, a);
    GrowCovers(t, names, a);
    NeedExtends(t1, names, name, Null);
    ExtendsTrans(t, t1, NeedMethod(t1, name));
    StableExpr(t1, NeedMethod(t1, name), names, a);
  }

  lemma {:induction false} GrowTwo(e: Expr, t: Tables, names: seq<string>, a: Expr, b: Expr, name: string)
    requires a < e && b < e
    ensures var t2 := GrowExpr(GrowExpr(t, names, a), names, b);
            var t3 := NeedMethod(t2, name);
            && Extends(t, t2) && CoversExpr(t2, names, a) && CoversExpr(t2, names, b)
            && Extends(t, t3) && CoversExpr(t3, names, a) && CoversExpr(t3, names, b) && name in t3.methods
    decreases e, 0
  {
    hide *;
    var t1 := GrowExpr(t, names, a);
    var t2 := GrowExpr(t1, names, b);
    var t3 := NeedMethod(t2, name);
    GrowCovers(t, names, a);
    GrowCovers(t1, names, b);
    ExtendsTrans(t, t1, t2);
    NeedExtends(t2, names, name, Null);
    ExtendsTrans(t, t2, t3);
    StableExpr(t1, t2, names, a);
    StableExpr(t2, t3, names, a);
    StableExpr(t2, t3, names, b);
  }

  lemma {:induction false} StableStmt(t: Tables, t': Tables, names: seq<string>, at: nat, loop: LoopInfo, s: Stmt)
    requires Extends(t, t') && CoversStmt(t, names, s)
    ensures CoversStmt(t', names, s) && GenStmt(t', names, at, loop, s) == GenStmt(t, names, at, loop, s)
    decreases s, 0
  {
    hide Extends, CoversExpr, GenExpr, GenStmt, SizeExpr, SizeStmt, Declared, GenBranches, GenJump, Pops;
    SimpleForms(t, names, at, loop, s);
    SimpleForms(t', names, at, loop, s);
    match s
    case Seq(first, rest) =>
      var f := GenStmt(t, names, at, loop, first);
      SeqForm(t, names, at, loop, first, rest);
      SeqForm(t', names, at, loop, first, rest);
      StableStmt(t, t', names, at, loop, first);
      StableStmt(t, t', Declared(names, first), at + |f|, loop, rest);
    case Evaluate(e) => StableExpr(t, t', names, e);
    case Declare(_, e) => StableExpr(t, t', names, e);
    case Give(e) => StableExpr(t, t', names, e);
    case Block(body) =>
      BlockForm(t, names, at, loop, body);
      BlockForm(t', names, at, loop, body);
      StableStmt(t, t', names, at, loop, body);
    case IfThen(c, yes) =>
      IfThenForm(t, names, at, loop, c, yes);
      IfThenForm(t', names, at, loop, c, yes);
      StableExpr(t, t', names, c);
      StableStmt(t, t', names, at + SizeExpr(names, c) + 3, loop, yes);
    case IfElse(c, yes, no) =>
      IfElseForm(t, names, at, loop, c, yes, no);
      IfElseForm(t', names, at, loop, c, yes, no);
      StableExpr(t, t', names, c);
      var at1 := at + SizeExpr(names, c) + 3;
      StableStmt(t, t', names, at1, loop, yes);
      StableStmt(t, t', names, at1 + |GenStmt(t, names, at1, loop, yes)| + 3, loop, no);
    case Loop(c, body) => StableLoop(t, t', names, at, c, body);
    case ForIn(x, sequence, body) => StableForIn(t, t', names, at, loop, x, sequence, body);
    case BreakLoop =>
    case ContinueLoop =>
    case Skip =>
  }

  lemma {:induction false} StableLoop(t: Tables, t': Tables, names: seq<string>, at: nat, c: Expr, body: Stmt)
    requires Extends(t, t') && CoversExpr(t, names, c) && CoversStmt(t, names, body)
    ensures CoversExpr(t', names, c) && CoversStmt(t', names, body)
            && GenLoop(t', names, at, c, body) == GenLoop(t, names, at, c, body)
    decreases body, 1
  {
    hide *;
    LoopForm(t, names, at, c, body);
    LoopForm(t', names, at, c, body);
    StableExpr(t, t', names, c);
    StableStmt(t, t', names, at + SizeExpr(names, c) + 3, LoopInfo(at, |names|, To(at + SizeLoop(names, c, body))),
        body);
  }

  lemma {:induction false} StableForIn(
      t: Tables, t': Tables, names: seq<string>, at: nat, loop: LoopInfo, x: string, sequence: Expr, body: Stmt)
    requires Extends(t, t') && CoversStmt(t, names, ForIn(x, sequence, body))
    ensures CoversStmt(t', names, ForIn(x, sequence, body))
    ensures GenStmt(t', names, at, loop, ForIn(x, sequence, body))
            == GenStmt(t, names, at, loop, ForIn(x, sequence, body))
    decreases body, 1
  {
    hide *;
    CoversForIn(t, names, x, sequence, body);
    CoversForIn(t', names, x, sequence, body);
    ForInForm(t, names, at, loop, x, sequence, body);
    ForInForm(t', names, at, loop, x, sequence, body);
    StableExpr(t, t', names, sequence);
    var at1 := at + SizeExpr(names, sequence) + 1;
    ForLoopForm(t, names, at1, x, body);
    ForLoopForm(t', names, at1, x, body);
    StableStmt(t, t', ForNames(names, x), at1 + BodyOffset(names),
        LoopInfo(at1, |names| + 2, To(at1 + SizeForLoop(names, x, body))), body);
    StableMethod(t, t', 1, ITERATE);
    StableMethod(t, t', 1, ITERATOR_VALUE);
    AdvanceIs(t, |names|);
    AdvanceIs(t', |names|);
  }

  lemma CoversForIn(t: Tables, names: seq<string>, x: string, sequence: Expr, body: Stmt)
    ensures CoversStmt(t, names, ForIn(x, sequence, body)) <==>
            CoversExpr(t, names, sequence) && CoversStmt(t, ForNames(names, x), body) && ITERATE in t.methods
                && ITERATOR_VALUE in t.methods
  {
    hide CoversExpr, ForNames;
  }

  // Two parts compiled one after the other are both covered afterwards.
  lemma {:induction false} GrowCoversStmt(t: Tables, names: seq<string>, s: Stmt)
    ensures Extends(t, GrowStmt(t, names, s)) && CoversStmt(GrowStmt(t, names, s), names, s)
    decreases s, 1
  {
    hide Extends, CoversExpr, GrowExpr, Declared, ForNames, NeedMethod;
    var t' := GrowStmt(t, names, s);
    NeedExtends(t, names, [], Null);
    match s
    case Seq(first, rest) =>
      GrowCoversStmt(t, names, first);
      LitCovered(GrowStmt(t, names, first), names, Null);
      GrowParts(t, GrowStmt(t, names, first), t', names, Lit(Null), first, Declared(names, first), rest);
    case Evaluate(e) => GrowCovers(t, names, e);
    case Declare(_, e) => GrowCovers(t, names, e);
    case Give(e) => GrowCovers(t, names, e);
    case Block(body) => GrowCoversStmt(t, names, body);
    case IfThen(c, yes) => GrowTested(t, names, c, yes);
    case IfElse(c, yes, no) =>
      GrowTested(t, names, c, yes);
      var t1 := GrowStmt(GrowExpr(t, names, c), names, yes);
      GrowParts(t, t1, t', names, c, yes, names, no);
    case Loop(c, body) => GrowTested(t, names, c, body);
    case ForIn(x, sequence, body) => GrowForIn(t, names, x, sequence, body);
    case _ =>
  }

  lemma {:induction false} GrowParts(
      t: Tables, t1: Tables, t2: Tables, names: seq<string>, c: Expr, a: Stmt, names': seq<string>, b: Stmt)
    requires Extends(t, t1) && CoversExpr(t1, names, c) && CoversStmt(t1, names, a) && t2 == GrowStmt(t1, names', b)
    ensures Extends(t, t2) && CoversExpr(t2, names, c) && CoversStmt(t2, names, a) && CoversStmt(t2, names', b)
    decreases b, 2
  {
    hide *;
    GrowCoversStmt(t1, names', b);
    ExtendsTrans(t, t1, t2);
    StableExpr(t1, t2, names, c);
    StableStmt(t1, t2, names, 0, LoopInfo(0, 0, Pending), a);
  }

  lemma {:induction false} GrowTested(t: Tables, names: seq<string>, c: Expr, body: Stmt)
    ensures var t' := GrowStmt(GrowExpr(t, names, c), names, body);
            Extends(t, t') && CoversExpr(t', names, c) && CoversStmt(t', names, body)
    decreases body, 2
  {
    hide *;
    var t1 := GrowExpr(t, names, c);
    var t' := GrowStmt(t1, names, body);
    GrowCovers(t, names, c);
    GrowCoversStmt(t1, names, body);
    ExtendsTrans(t, t1, t');
    StableExpr(t1, t', names, c);
  }

  lemma {:induction false} GrowForIn(t: Tables, names: seq<string>, x: string, sequence: Expr, body: Stmt)
    ensures var t' := GrowStmt(t, names, ForIn(x, sequence, body));
            Extends(t, t') && CoversStmt(t', names, ForIn(x, sequence, body))
    decreases body, 2
  {
    hide *;
    var t0 := GrowExpr(t, names, sequence);
    var t1 := NeedMethod(t0, ITERATE);
    var t2 := NeedMethod(t1, ITERATOR_VALUE);
    var t' := GrowStmt(t2, ForNames(names, x), body);
    GrowForInIs(t, names, x, sequence, body);
    GrowCall(t, names, sequence, ITERATE);
    NeedExtends(t1, names, ITERATOR_VALUE, Null);
    GrowCoversStmt(t2, ForNames(names, x), body);
    ExtendsTrans(t1, t2, t');
    ExtendsTrans(t, t1, t');
    StableExpr(t1, t', names, sequence);
    StableMethod(t1, t', 1, ITERATE);
    StableMethod(t2, t', 1, ITERATOR_VALUE);
    CoversForIn(t', names, x, sequence, body);
  }

  lemma GrowForInIs(t: Tables, names: seq<string>, x: string, sequence: Expr, body: Stmt)
    ensures GrowStmt(t, names, ForIn(x, sequence, body))
         == GrowStmt(NeedMethod(NeedMethod(GrowExpr(t, names, sequence), ITERATE), ITERATOR_VALUE), ForNames(names, x),
            body)
  {
    hide GrowExpr, NeedMethod, ForNames;
  }

  // ----- Output -----

  // What the compiler has produced so far. [slots] counts the values on the stack
  // after the last instruction, and [high] is the most it has ever been.
  datatype Output = Output(code: seq<byte>, tables: Tables, slots: int, high: int)

  function Higher(a: int, b: int): int {
    if a < b then b else a
  }

  // One instruction.
  function Emit(u: Output, op: byte, operands: seq<byte>): Output {
    var slots := u.slots + StackEffect(op);
    Output(u.code + ([op] + operands), u.tables, slots, Higher(u.high, slots))
  }

  // A call of the method [name].
  function EmitCall(u: Output, arity: nat, name: string): Output
    requires arity <= 16
  {
    var t := NeedMethod(u.tables, name);
    Emit(u.(tables := t), CODE_CALL_0 + arity, Short(IndexOf(t.methods, name)))
  }

  // A jump whose distance is not known yet.
  function EmitJump(u: Output, op: byte): Output {
    Emit(u, op, [0xff, 0xff])
  }

  // The jump whose operand is at [offset] now goes to the end of the code.
  function PatchJump(u: Output, offset: nat): Output
    requires offset + 2 <= |u.code|
  {
    u.(code := u.code[..offset] + Short(|u.code| - offset - 2) + u.code[offset + 2..])
  }

  // The output once [e] is compiled.
  function AfterExpr(u: Output, names: seq<string>, e: Expr): Output {
    var t := GrowExpr(u.tables, names, e);
    Output(u.code + GenExpr(t, names, e), t, u.slots + NetExpr(e), Higher(u.high, u.slots + PeakExpr(e)))
  }

  // The output once [s] is compiled; a placeholder stands for each jump to the end
  // of [loop].
  function AfterStmt(u: Output, names: seq<string>, loop: LoopInfo, s: Stmt): Output {
    var t := GrowStmt(u.tables, names, s);
    Output(u.code + GenStmt(t, names, |u.code|, loop, s), t, u.slots + NetStmt(names, s),
        Higher(u.high, u.slots + PeakStmt(names, s)))
  }

  // ----- Expressions, one construct at a time -----

  lemma PatchForward(pre: seq<byte>, op: byte, mid: seq<byte>, u: Output)
    requires u.code == pre + ([op] + [0xff, 0xff]) + mid
    ensures |pre| + 3 <= |u.code|
    ensures PatchJump(u, |pre| + 1) == u.(code := pre + GenJump(op, |mid|) + mid)
  {
    hide Short;
    var n := Short(|mid|);
    assert u.code[..|pre| + 1] == pre + [op];
    assert u.code[|pre| + 3..] == mid;
    assert pre + [op] + n + mid == pre + ([op] + n) + mid;
  }

  // Compiling [l] and then [r] keeps the code of [l].
  lemma {:induction false} AfterTwo(u: Output, names: seq<string>, l: Expr, r: Expr)
    ensures var u2 := AfterExpr(AfterExpr(u, names, l), names, r);
            && u2.tables == GrowExpr(GrowExpr(u.tables, names, l), names, r)
            && u2.code == u.code + GenExpr(u2.tables, names, l) + GenExpr(u2.tables, names, r)
            && u2.slots == u.slots + NetExpr(l) + NetExpr(r)
            && u2.high == Higher(u.high, Higher(u.slots + PeakExpr(l), u.slots + NetExpr(l) + PeakExpr(r)))
  {
    hide GenExpr, GrowExpr, NetExpr, PeakExpr, CoversExpr, Extends;
    var t1 := GrowExpr(u.tables, names, l);
    GrowCovers(u.tables, names, l);
    GrowCovers(t1, names, r);
    StableExpr(t1, GrowExpr(t1, names, r), names, l);
  }

  // A call after its receiver, and argument if there is one.
  lemma CallStable(t: Tables, names: seq<string>, e: Expr, name: string)
    requires CoversExpr(t, names, e)
    ensures GenExpr(NeedMethod(t, name), names, e) == GenExpr(t, names, e)
  {
    hide CoversExpr, GenExpr;
    NeedExtends(t, names, name, Null);
    StableExpr(t, NeedMethod(t, name), names, e);
  }

  lemma {:induction false} EmitUnary(u: Output, names: seq<string>, e: Expr, a: Expr, name: string)
    requires IsCall1(e, a, name)
    ensures EmitCall(AfterExpr(u, names, a), 0, name) == AfterExpr(u, names, e)
  {
    hide *;
    var t := GrowExpr(u.tables, names, a);
    GrowCovers(u.tables, names, a);
    CallStable(t, names, a, name);
    UnaryForms(u.tables, names, e, a, name);
    EmitUnaryBytes(u, names, e, a, name);
  }

  lemma UnaryForms(t: Tables, names: seq<string>, e: Expr, a: Expr, name: string)
    requires IsCall1(e, a, name)
    ensures GrowExpr(t, names, e) == NeedMethod(GrowExpr(t, names, a), name)
    ensures NetExpr(e) == NetExpr(a) && PeakExpr(e) == PeakExpr(a)
    ensures forall t' :: GenExpr(t', names, e) == GenExpr(t', names, a) + GenCall(t', 0, name)
  {
    hide GenCall, NeedMethod, UnaryName, SizeExpr;
  }

  lemma EmitUnaryBytes(u: Output, names: seq<string>, e: Expr, a: Expr, name: string)
    requires var t := GrowExpr(u.tables, names, a);
             var t' := NeedMethod(t, name);
             && GrowExpr(u.tables, names, e) == t'
             && GenExpr(t', names, e) == GenExpr(t', names, a) + GenCall(t', 0, name)
             && GenExpr(t', names, a) == GenExpr(t, names, a)
             && NetExpr(e) == NetExpr(a) && PeakExpr(e) == PeakExpr(a)
    ensures EmitCall(AfterExpr(u, names, a), 0, name) == AfterExpr(u, names, e)
  {
    hide GenExpr, GrowExpr, NetExpr, PeakExpr, NeedMethod, Short;
  }

  lemma {:induction false} EmitBinary(u: Output, names: seq<string>, e: Expr, a: Expr, b: Expr, name: string)
    requires IsCall2(e, a, b, name)
    ensures EmitCall(AfterExpr(AfterExpr(u, names, a), names, b), 1, name) == AfterExpr(u, names, e)
  {
    hide *;
    var t2 := GrowExpr(GrowExpr(u.tables, names, a), names, b);
    AfterTwo(u, names, a, b);
    GrowTwo(e, u.tables, names, a, b, name) by { BinaryParts(e, a, b, name); }
    CallStable(t2, names, a, name);
    CallStable(t2, names, b, name);
    BinaryForms(u.tables, names, e, a, b, name);
    Call2Bytes(NeedMethod(t2, name), names, e, a, b, name);
    var u2 := AfterExpr(AfterExpr(u, names, a), names, b);
    CallIs(u2, 1, name);
    AfterIs(u, names, e);
    var t3 := NeedMethod(t2, name);
    Assoc(u.code, GenExpr(t3, names, a), GenExpr(t3, names, b));
    Assoc(u.code, GenExpr(t3, names, a) + GenExpr(t3, names, b), GenCall(t3, 1, name));
    HigherCall(u.high, u.slots, PeakExpr(a), NetExpr(a), PeakExpr(b), NetExpr(b));
  }

  lemma HigherCall(high: int, slots: int, peakA: nat, netA: int, peakB: nat, netB: int)
    requires 1 <= netA <= peakA && 1 <= netB <= peakB
    ensures Higher(Higher(high, Higher(slots + peakA, slots + netA + peakB)), slots + netA + netB - 1)
         == Higher(high, slots + Max(peakA, netA + peakB))
  {
  }

  lemma BinaryParts(e: Expr, a: Expr, b: Expr, name: string)
    requires IsCall2(e, a, b, name)
    ensures a < e && b < e
  {
  }

  lemma BinaryForms(t: Tables, names: seq<string>, e: Expr, a: Expr, b: Expr, name: string)
    requires IsCall2(e, a, b, name)
    ensures GrowExpr(t, names, e) == NeedMethod(GrowExpr(GrowExpr(t, names, a), names, b), name)
    ensures NetExpr(e) == NetExpr(a) + NetExpr(b) - 1 && PeakExpr(e) == Max(PeakExpr(a), NetExpr(a) + PeakExpr(b))
  {
    if e.Binary? { PairCallGrow(t, names, a, b, e.op, []); } else { PairCallGrow(t, names, a, b, DotDot, e.name); }
    hide GrowExpr, NeedMethod, BinaryName, SetterName;
  }

  lemma CallIs(u: Output, arity: nat, name: string)
    requires arity <= 16
    ensures var t := NeedMethod(u.tables, name);
            EmitCall(u, arity, name)
                == Output(u.code + GenCall(t, arity, name), t, u.slots - arity, Higher(u.high, u.slots - arity))
  {
    hide NeedMethod, Short;
  }

  // [op] skips [b] if [a] decides the result.
  lemma {:induction false} EmitLogical(u: Output, names: seq<string>, e: Expr, op: byte, a: Expr, b: Expr)
    requires IsLogical(e, op, a, b)
    ensures var u1 := EmitJump(AfterExpr(u, names, a), op);
            var u2 := AfterExpr(u1, names, b);
            && 2 <= |u1.code| <= |u2.code|
            && PatchJump(u2, |u1.code| - 2) == AfterExpr(u, names, e)
  {
    hide *;
    var u1 := EmitJump(AfterExpr(u, names, a), op);
    LogicalForms(u, GrowExpr(u1.tables, names, b), names, e, op, a, b);
    AfterIs(u, names, a);
    JumpIs(AfterExpr(u, names, a), op);
    AfterIs(u1, names, b);
    AfterIs(u, names, e);
    GrowCovers(u.tables, names, a);
    GrowCovers(u1.tables, names, b);
    var t := GrowExpr(u1.tables, names, b);
    StableExpr(u1.tables, t, names, a);
    PatchForward(u.code + GenExpr(t, names, a), op, GenExpr(t, names, b), AfterExpr(u1, names, b));
    Assoc(u.code, GenExpr(t, names, a), GenJump(op, SizeExpr(names, b)));
    Assoc(u.code, GenExpr(t, names, a) + GenJump(op, SizeExpr(names, b)), GenExpr(t, names, b));
  }

  lemma AfterIs(u: Output, names: seq<string>, e: Expr)
    ensures var t := GrowExpr(u.tables, names, e);
            AfterExpr(u, names, e)
                == Output(u.code + GenExpr(t, names, e), t, u.slots + NetExpr(e), Higher(u.high, u.slots + PeakExpr(e)))
  {
    hide GenExpr, GrowExpr, NetExpr, PeakExpr;
  }

  // Only the jumps that test a value take it off the stack.
  lemma JumpIs(u: Output, op: byte)
    ensures op == CODE_JUMP_IF || CODE_JUMP_IF <= op <= CODE_OR ==>
              EmitJump(u, op)
                  == Output(u.code + ([op] + [0xff, 0xff]), u.tables, u.slots - 1, Higher(u.high, u.slots - 1))
    ensures op == CODE_JUMP || op == CODE_END ==>
              EmitJump(u, op) == Output(u.code + ([op] + [0xff, 0xff]), u.tables, u.slots, Higher(u.high, u.slots))
  {
  }

  lemma LogicalForms(u: Output, t': Tables, names: seq<string>, e: Expr, op: byte, a: Expr, b: Expr)
    requires IsLogical(e, op, a, b)
    ensures CODE_JUMP_IF <= op <= CODE_OR
    ensures GrowExpr(u.tables, names, e) == GrowExpr(GrowExpr(u.tables, names, a), names, b)
    ensures u.slots + NetExpr(e) == u.slots + NetExpr(a) - 1 + NetExpr(b)
    ensures Higher(u.high, u.slots + PeakExpr(e))
         == Higher(Higher(Higher(u.high, u.slots + PeakExpr(a)), u.slots + NetExpr(a) - 1),
            u.slots + NetExpr(a) - 1 + PeakExpr(b))
    ensures GenExpr(t', names, e) == GenExpr(t', names, a) + GenJump(op, SizeExpr(names, b)) + GenExpr(t', names, b)
  {
    hide *;
    LogicalBytes(t', names, e, op, a, b);
    LogicalSlots(u.tables, names, e, op, a, b);
    HigherIs(u.high, u.slots, PeakExpr(a), NetExpr(a), PeakExpr(b));
  }

  lemma LogicalSlots(t: Tables, names: seq<string>, e: Expr, op: byte, a: Expr, b: Expr)
    requires IsLogical(e, op, a, b)
    ensures CODE_JUMP_IF <= op <= CODE_OR
    ensures GrowExpr(t, names, e) == GrowExpr(GrowExpr(t, names, a), names, b)
    ensures NetExpr(e) == NetExpr(a) - 1 + NetExpr(b) && PeakExpr(e) == Max(PeakExpr(a), NetExpr(a) - 1 + PeakExpr(b))
  {
    PairGrow(t, names, a, b);
    hide GrowExpr;
  }

  lemma PairGrow(t: Tables, names: seq<string>, a: Expr, b: Expr)
    ensures GrowExpr(t, names, And(a, b)) == GrowExpr(GrowExpr(t, names, a), names, b)
    ensures GrowExpr(t, names, Or(a, b)) == GrowExpr(GrowExpr(t, names, a), names, b)
  {
    hide NeedMethod, NeedConst, NeedName, GrowCond;
  }

  lemma PairCallGrow(t: Tables, names: seq<string>, a: Expr, b: Expr, op: BinaryOp, name: string)
    ensures GrowExpr(t, names, Binary(op, a, b))
            == NeedMethod(GrowExpr(GrowExpr(t, names, a), names, b), BinaryName(op))
    ensures GrowExpr(t, names, Set(a, name, b))
            == NeedMethod(GrowExpr(GrowExpr(t, names, a), names, b), SetterName(name))
  {
    hide NeedMethod, NeedConst, NeedName, GrowCond, BinaryName, SetterName;
  }

  lemma HigherIs(high: int, slots: int, peakA: nat, netA: int, peakB: nat)
    requires 1 <= netA <= peakA
    ensures Higher(high, slots + Max(peakA, netA - 1 + peakB))
         == Higher(Higher(Higher(high, slots + peakA), slots + netA - 1), slots + netA - 1 + peakB)
  {
  }

  lemma {:induction false} EmitCond(u: Output, names: seq<string>, c: Expr, y: Expr, n: Expr)
    ensures var u1 := EmitJump(AfterExpr(u, names, c), CODE_JUMP_IF);
            var u2 := EmitJump(AfterExpr(u1, names, y), CODE_JUMP);
            && 2 <= |u1.code| <= |u2.code|
            && var u3 := AfterExpr(PatchJump(u2, |u1.code| - 2), names, n);
            && |u2.code| <= |u3.code|
            && PatchJump(u3, |u2.code| - 2) == AfterExpr(u, names, Cond(c, y, n))
  {
    hide *;
    var u0 := AfterExpr(u, names, c);
    var u1 := EmitJump(u0, CODE_JUMP_IF);
    var uy := AfterExpr(u1, names, y);
    var u2 := EmitJump(uy, CODE_JUMP);
    var t1, t2 := GrowExpr(u.tables, names, c), GrowExpr(GrowExpr(u.tables, names, c), names, y);
    var t3 := GrowExpr(t2, names, n);
    AfterIs(u, names, c);
    JumpIs(u0, CODE_JUMP_IF);
    AfterIs(u1, names, y);
    JumpIs(uy, CODE_JUMP);
    GrowCovers(u.tables, names, c);
    GrowCovers(t1, names, y);
    GrowCovers(t2, names, n);
    ExtendsTrans(t1, t2, t3);
    StableExpr(t1, t3, names, c);
    StableExpr(t2, t3, names, y);
    var gc, gy, gn := GenExpr(t3, names, c), GenExpr(t3, names, y), GenExpr(t3, names, n);
    var test, over := GenJump(CODE_JUMP_IF, |gy| + 3), GenJump(CODE_JUMP, |gn|);
    var skip: seq<byte> := [CODE_JUMP] + [0xff, 0xff];
    Assoc(u.code + gc + ([CODE_JUMP_IF] + [0xff, 0xff]), gy, skip);
    PatchForward(u.code + gc, CODE_JUMP_IF, gy + skip, u2);
    var u3 := PatchJump(u2, |u1.code| - 2);
    AfterIs(u3, names, n);
    Assoc(u.code + gc + test, gy, skip);
    PatchForward(u.code + gc + test + gy, CODE_JUMP, gn, AfterExpr(u3, names, n));
    CondForms(u, t3, names, c, y, n);
    AfterIs(u, names, Cond(c, y, n));
    AssocCond(u.code, gc, test, gy, over, gn);
  }

  lemma AssocCond(u: seq<byte>, a: seq<byte>, b: seq<byte>, c: seq<byte>, d: seq<byte>, e: seq<byte>)
    ensures u + a + b + c + d + e == u + (a + b + c + d + e)
  {
  }

  lemma CondForms(u: Output, t': Tables, names: seq<string>, c: Expr, y: Expr, n: Expr)
    ensures GrowExpr(u.tables, names, Cond(c, y, n))
            == GrowExpr(GrowExpr(GrowExpr(u.tables, names, c), names, y), names, n)
    ensures NetExpr(Cond(c, y, n)) == NetExpr(c) - 1 + NetExpr(y) + NetExpr(n)
    ensures var s1 := u.slots + NetExpr(c) - 1;
            var h1 := Higher(Higher(u.high, u.slots + PeakExpr(c)), s1);
            var h2 := Higher(Higher(h1, s1 + PeakExpr(y)), s1 + NetExpr(y));
            Higher(u.high, u.slots + PeakExpr(Cond(c, y, n))) == Higher(h2, s1 + NetExpr(y) + PeakExpr(n))
    ensures var gc, gy, gn := GenExpr(t', names, c), GenExpr(t', names, y), GenExpr(t', names, n);
            GenExpr(t', names, Cond(c, y, n))
                == gc + GenJump(CODE_JUMP_IF, |gy| + 3) + gy + GenJump(CODE_JUMP, |gn|) + gn
  {
    hide *;
    CondBytes(t', names, c, y, n);
    CondSlots(u.tables, names, c, y, n);
    HigherCond(u.high, u.slots, PeakExpr(c), NetExpr(c), PeakExpr(y), NetExpr(y), PeakExpr(n));
  }

  lemma CondSlots(t: Tables, names: seq<string>, c: Expr, y: Expr, n: Expr)
    ensures GrowExpr(t, names, Cond(c, y, n)) == GrowExpr(GrowExpr(GrowExpr(t, names, c), names, y), names, n)
    ensures NetExpr(Cond(c, y, n)) == NetExpr(c) - 1 + NetExpr(y) + NetExpr(n)
    ensures PeakExpr(Cond(c, y, n))
         == Max(PeakExpr(c), Max(NetExpr(c) - 1 + PeakExpr(y), NetExpr(c) - 1 + NetExpr(y) + PeakExpr(n)))
  {
    hide *;
    CondGrow(t, names, c, y, n);
    CondNet(c, y, n);
    CondPeak(c, y, n);
  }

  lemma CondGrow(t: Tables, names: seq<string>, c: Expr, y: Expr, n: Expr)
    ensures GrowExpr(t, names, Cond(c, y, n)) == GrowExpr(GrowExpr(GrowExpr(t, names, c), names, y), names, n)
  {
    hide *;
    CondUnfolds(t, names, c, y, n);
    GrowCondIs(t, names, c, y, n);
  }

  lemma CondUnfolds(t: Tables, names: seq<string>, c: Expr, y: Expr, n: Expr)
    ensures GrowExpr(t, names, Cond(c, y, n)) == GrowCond(t, names, c, y, n)
  {
    hide GrowCond;
  }

  lemma GrowCondIs(t: Tables, names: seq<string>, c: Expr, y: Expr, n: Expr)
    ensures GrowCond(t, names, c, y, n) == GrowExpr(GrowExpr(GrowExpr(t, names, c), names, y), names, n)
  {
    hide GrowExpr;
  }

  lemma CondNet(c: Expr, y: Expr, n: Expr)
    ensures NetExpr(Cond(c, y, n)) == NetExpr(c) - 1 + NetExpr(y) + NetExpr(n)
  {
  }

  lemma CondPeak(c: Expr, y: Expr, n: Expr)
    ensures PeakExpr(Cond(c, y, n))
         == Max(PeakExpr(c), Max(NetExpr(c) - 1 + PeakExpr(y), NetExpr(c) - 1 + NetExpr(y) + PeakExpr(n)))
  {
    hide NetExpr;
  }

  lemma HigherCond(high: int, slots: int, peakC: nat, netC: int, peakY: nat, netY: int, peakN: nat)
    requires 1 <= netC <= peakC && 1 <= netY <= peakY
    ensures var s1 := slots + netC - 1;
            var h1 := Higher(Higher(high, slots + peakC), s1);
            var h2 := Higher(Higher(h1, s1 + peakY), s1 + netY);
            Higher(high, slots + Max(peakC, Max(netC - 1 + peakY, netC - 1 + netY + peakN)))
                == Higher(h2, s1 + netY + peakN)
  {
  }

  // ----- Names and literals -----

  function EmitLiteral(u: Output, v: Value): Output {
    match v
    case Null => Emit(u, CODE_NULL, [])
    case False => Emit(u, CODE_FALSE, [])
    case True => Emit(u, CODE_TRUE, [])
    case _ =>
      var t := NeedConst(u.tables, v);
      Emit(u.(tables := t), CODE_CONSTANT, Short(IndexOf(t.consts, v)))
  }

  lemma EmitLit(u: Output, names: seq<string>, v: Value)
    ensures EmitLiteral(u, v) == AfterExpr(u, names, Lit(v))
  {
    hide Short;
    assert forall op: byte :: [op] + [] == [op];
  }

  // Where a name was found: in a slot, or in the table of module variables.
  datatype Resolved = Local(slot: nat) | Module(index: nat)

  function Resolve(t: Tables, names: seq<string>, x: string): Resolved {
    if Innermost(names, x) >= 0 then Local(Innermost(names, x)) else Module(IndexOf(t.globals, x))
  }

  function EmitLoadLocal(u: Output, slot: nat): Output {
    if slot <= 8 then Emit(u, CODE_LOAD_LOCAL_0 + slot, []) else Emit(u, CODE_LOAD_LOCAL, [slot % 256])
  }

  function EmitLoad(u: Output, v: Resolved): Output {
    match v
    case Local(slot) => EmitLoadLocal(u, slot)
    case Module(index) => Emit(u, CODE_LOAD_MODULE_VAR, Short(index))
  }

  function EmitStore(u: Output, v: Resolved): Output {
    match v
    case Local(slot) => Emit(u, CODE_STORE_LOCAL, [slot % 256])
    case Module(index) => Emit(u, CODE_STORE_MODULE_VAR, Short(index))
  }

  lemma EmitLoadLocalIs(u: Output, slot: nat)
    ensures EmitLoadLocal(u, slot)
            == Output(u.code + GenLoadLocal(slot), u.tables, u.slots + 1, Higher(u.high, u.slots + 1))
  {
    assert forall op: byte :: [op] + [] == [op];
  }

  lemma EmitVariable(u: Output, names: seq<string>, x: string)
    ensures var t := NeedName(u.tables, names, x);
            EmitLoad(u.(tables := t), Resolve(t, names, x)) == AfterExpr(u, names, Variable(x))
  {
    hide Short;
    if Innermost(names, x) >= 0 { EmitLoadLocalIs(u, Innermost(names, x)); }
  }

  // The name is resolved before its new value is compiled.
  lemma {:induction false} EmitAssign(u: Output, names: seq<string>, x: string, rhs: Expr)
    ensures var t := NeedName(u.tables, names, x);
            EmitStore(AfterExpr(u.(tables := t), names, rhs), Resolve(t, names, x))
                == AfterExpr(u, names, Assign(x, rhs))
  {
    hide GenExpr, GrowExpr, NetExpr, PeakExpr, Extends, CoversExpr, NeedName, CoversName, SizeExpr;
    var t := NeedName(u.tables, names, x);
    var t' := GrowExpr(t, names, rhs);
    NeedExtends(u.tables, names, x, Null);
    GrowCovers(t, names, rhs);
    ResolveStable(t, t', names, x);
    AssignForms(u.tables, t', names, x, rhs);
    StoreIs(AfterExpr(u.(tables := t), names, rhs), names, x);
    Assoc(u.code, GenExpr(t', names, rhs), GenStore(t', names, x));
  }

  lemma AssignForms(t: Tables, t': Tables, names: seq<string>, x: string, rhs: Expr)
    ensures GrowExpr(t, names, Assign(x, rhs)) == GrowExpr(NeedName(t, names, x), names, rhs)
    ensures NetExpr(Assign(x, rhs)) == NetExpr(rhs) <= PeakExpr(rhs) == PeakExpr(Assign(x, rhs))
    ensures GenExpr(t', names, Assign(x, rhs)) == GenExpr(t', names, rhs) + GenStore(t', names, x)
  {
    hide GenStore, SizeExpr, NeedName;
  }

  lemma ResolveStable(t: Tables, t': Tables, names: seq<string>, x: string)
    requires Extends(t, t') && CoversName(t, names, x)
    ensures Resolve(t', names, x) == Resolve(t, names, x)
  {
    if Innermost(names, x) < 0 { IndexOfPrefix(t.globals, t'.globals, x); }
  }

  lemma StoreIs(u: Output, names: seq<string>, x: string)
    ensures EmitStore(u, Resolve(u.tables, names, x))
            == Output(u.code + GenStore(u.tables, names, x), u.tables, u.slots, Higher(u.high, u.slots))
  {
    hide Short;
  }

  // ----- Statements, one construct at a time -----

  lemma AfterStmtIs(u: Output, names: seq<string>, loop: LoopInfo, s: Stmt)
    ensures var t := GrowStmt(u.tables, names, s);
            AfterStmt(u, names, loop, s)
            == Output(u.code + GenStmt(t, names, |u.code|, loop, s), t, u.slots + NetStmt(names, s),
               Higher(u.high, u.slots + PeakStmt(names, s)))
  {
    hide GenStmt, GrowStmt, NetStmt, PeakStmt;
  }

  lemma EmitSkip(u: Output, names: seq<string>, loop: LoopInfo)
    requires u.slots <= u.high
    ensures AfterStmt(u, names, loop, Skip) == u
  {
  }

  // An instruction after an expression, with its effect on the stack.
  lemma EmitAfter(u: Output, op: byte)
    ensures op == CODE_POP ==>
              Emit(u, op, []) == Output(u.code + [op], u.tables, u.slots - 1, Higher(u.high, u.slots - 1))
    ensures op == CODE_RETURN || op == CODE_END ==>
              Emit(u, op, []) == Output(u.code + [op], u.tables, u.slots, Higher(u.high, u.slots))
    ensures op == CODE_NULL ==>
              Emit(u, op, []) == Output(u.code + [op], u.tables, u.slots + 1, Higher(u.high, u.slots + 1))
  {
    assert [op] + [] == [op];
  }

  lemma {:induction false} EmitSimple(u: Output, names: seq<string>, loop: LoopInfo, e: Expr, x: string)
    ensures Emit(AfterExpr(u, names, e), CODE_POP, []) == AfterStmt(u, names, loop, Evaluate(e))
    ensures Emit(AfterExpr(u, names, e), CODE_RETURN, []) == AfterStmt(u, names, loop, Give(e))
    ensures AfterExpr(u, names, e) == AfterStmt(u, names, loop, Declare(x, e))
  {
    hide GenExpr, GrowExpr, NetExpr, PeakExpr, GenStmt, Emit;
    EmitAfter(AfterExpr(u, names, e), CODE_POP);
    EmitAfter(AfterExpr(u, names, e), CODE_RETURN);
    SimpleForms(GrowExpr(u.tables, names, e), names, |u.code|, loop, Evaluate(e));
    SimpleForms(GrowExpr(u.tables, names, e), names, |u.code|, loop, Give(e));
    SimpleForms(GrowExpr(u.tables, names, e), names, |u.code|, loop, Declare(x, e));
    assert NetExpr(e) <= PeakExpr(e);
  }

  lemma {:induction false} EmitSeq(u: Output, names: seq<string>, loop: LoopInfo, a: Stmt, b: Stmt)
    ensures AfterStmt(AfterStmt(u, names, loop, a), Declared(names, a), loop, b) == AfterStmt(u, names, loop, Seq(a, b))
  {
    hide *;
    var u1 := AfterStmt(u, names, loop, a);
    var names' := Declared(names, a);
    var t1 := GrowStmt(u.tables, names, a);
    var t2 := GrowStmt(t1, names', b);
    AfterStmtIs(u, names, loop, a);
    AfterStmtIs(u1, names', loop, b);
    AfterStmtIs(u, names, loop, Seq(a, b));
    GrowCoversStmt(u.tables, names, a);
    GrowCoversStmt(t1, names', b);
    StableStmt(t1, t2, names, |u.code|, loop, a);
    SeqForm(t2, names, |u.code|, loop, a, b);
    SeqSlots(u.tables, names, a, b);
    Assoc(u.code, GenStmt(t2, names, |u.code|, loop, a), GenStmt(t2, names', |u1.code|, loop, b));
    HigherSeq(u.high, u.slots, PeakStmt(names, a), NetStmt(names, a), PeakStmt(names', b));
  }

  lemma SeqSlots(t: Tables, names: seq<string>, a: Stmt, b: Stmt)
    ensures GrowStmt(t, names, Seq(a, b)) == GrowStmt(GrowStmt(t, names, a), Declared(names, a), b)
    ensures NetStmt(names, Seq(a, b)) == NetStmt(names, a) + NetStmt(Declared(names, a), b)
    ensures PeakStmt(names, Seq(a, b)) == Max(PeakStmt(names, a), NetStmt(names, a) + PeakStmt(Declared(names, a), b))
  {
    hide *;
    SeqGrow(t, names, a, b);
    SeqNet(names, a, b);
    SeqPeak(names, a, b);
  }

  lemma SeqGrow(t: Tables, names: seq<string>, a: Stmt, b: Stmt)
    ensures GrowStmt(t, names, Seq(a, b)) == GrowStmt(GrowStmt(t, names, a), Declared(names, a), b)
  {
    hide Declared, GrowExpr;
  }

  lemma SeqNet(names: seq<string>, a: Stmt, b: Stmt)
    ensures NetStmt(names, Seq(a, b)) == NetStmt(names, a) + NetStmt(Declared(names, a), b)
  {
    hide Declared, NetExpr;
  }

  lemma SeqPeak(names: seq<string>, a: Stmt, b: Stmt)
    ensures PeakStmt(names, Seq(a, b)) == Max(PeakStmt(names, a), NetStmt(names, a) + PeakStmt(Declared(names, a), b))
  {
    hide Declared, NetStmt, PeakExpr;
  }

  lemma HigherSeq(high: int, slots: int, peakA: nat, netA: nat, peakB: nat)
    ensures Higher(Higher(high, slots + peakA), slots + netA + peakB) == Higher(high, slots + Max(peakA, netA + peakB))
  {
  }

  // The pops at the end of a scope, which the count of slots leaves out.
  function Discard(u: Output, n: int): Output {
    u.(code := u.code + Pops(n))
  }

  lemma {:induction false} EmitBlock(u: Output, names: seq<string>, loop: LoopInfo, body: Stmt)
    ensures var u1 := AfterStmt(u, names, loop, body);
            var n := |Declared(names, body)| - |names|;
            Discard(u1, n).(slots := u1.slots - n) == AfterStmt(u, names, loop, Block(body))
  {
    hide GenStmt, GrowStmt, NetStmt, PeakStmt, Declared, Pops;
    var t := GrowStmt(u.tables, names, body);
    BlockForm(t, names, |u.code|, loop, body);
    BlockSlots(u.tables, names, body);
    Assoc(u.code, GenStmt(t, names, |u.code|, loop, body), Pops(|Declared(names, body)| - |names|));
  }

  lemma BlockSlots(t: Tables, names: seq<string>, body: Stmt)
    ensures GrowStmt(t, names, Block(body)) == GrowStmt(t, names, body)
    ensures NetStmt(names, Block(body)) == NetStmt(names, body) - (|Declared(names, body)| - |names|)
    ensures PeakStmt(names, Block(body)) == PeakStmt(names, body)
  {
    hide Declared;
  }

  // The jumps out of and back to the start of a loop.
  lemma EmitEscape(u: Output, names: seq<string>, loop: LoopInfo)
    requires loop.exit.Pending? && u.slots <= u.high
    ensures var u1 := Discard(u, |names| - loop.locals);
            && EmitJump(u1, CODE_END) == AfterStmt(u, names, loop, BreakLoop)
            && (loop.start <= |u.code| ==>
                  Emit(u1, CODE_LOOP, Short(|u1.code| + 3 - loop.start)) == AfterStmt(u, names, loop, ContinueLoop))
  {
    hide GenStmt, Pops, Short;
    var pops := Pops(|names| - loop.locals);
    var u1 := Discard(u, |names| - loop.locals);
    SimpleForms(u.tables, names, |u.code|, loop, BreakLoop);
    SimpleForms(u.tables, names, |u.code|, loop, ContinueLoop);
    Assoc(u.code, pops, GenBreak(|u1.code|, Pending));
    Assoc(u.code, pops, GenJump(CODE_LOOP, |u1.code| + 3 - loop.start));
  }

  lemma {:induction false} EmitIfThen(u: Output, names: seq<string>, loop: LoopInfo, c: Expr, yes: Stmt)
    ensures var u1 := EmitJump(AfterExpr(u, names, c), CODE_JUMP_IF);
            var u2 := AfterStmt(u1, names, loop, yes);
            && 2 <= |u1.code| <= |u2.code|
            && PatchJump(u2, |u1.code| - 2) == AfterStmt(u, names, loop, IfThen(c, yes))
  {
    hide *;
    var u0 := AfterExpr(u, names, c);
    var u1 := EmitJump(u0, CODE_JUMP_IF);
    var u2 := AfterStmt(u1, names, loop, yes);
    var t1 := GrowExpr(u.tables, names, c);
    var t2 := GrowStmt(t1, names, yes);
    AfterIs(u, names, c);
    JumpIs(u0, CODE_JUMP_IF);
    AfterStmtIs(u1, names, loop, yes);
    AfterStmtIs(u, names, loop, IfThen(c, yes));
    GrowCovers(u.tables, names, c);
    GrowCoversStmt(t1, names, yes);
    StableExpr(t1, t2, names, c);
    IfThenForm(t2, names, |u.code|, loop, c, yes);
    IfSlots(u.tables, names, c, yes, yes);
    var gc, gy := GenExpr(t2, names, c), GenStmt(t2, names, |u1.code|, loop, yes);
    PatchForward(u.code + gc, CODE_JUMP_IF, gy, u2);
    Assoc(u.code, gc, GenJump(CODE_JUMP_IF, |gy|));
    Assoc(u.code, gc + GenJump(CODE_JUMP_IF, |gy|), gy);
    HigherIs(u.high, u.slots, PeakExpr(c), NetExpr(c), PeakStmt(names, yes));
  }

  lemma IfSlots(t: Tables, names: seq<string>, c: Expr, yes: Stmt, no: Stmt)
    ensures GrowStmt(t, names, IfThen(c, yes)) == GrowStmt(GrowExpr(t, names, c), names, yes)
    ensures NetStmt(names, IfThen(c, yes)) == NetExpr(c) - 1 + NetStmt(names, yes)
    ensures PeakStmt(names, IfThen(c, yes)) == Max(PeakExpr(c), NetExpr(c) - 1 + PeakStmt(names, yes))
    ensures GrowStmt(t, names, IfElse(c, yes, no)) == GrowStmt(GrowStmt(GrowExpr(t, names, c), names, yes), names, no)
    ensures NetStmt(names, IfElse(c, yes, no)) == NetExpr(c) - 1 + NetStmt(names, yes) + NetStmt(names, no)
    ensures PeakStmt(names, IfElse(c, yes, no))
         == Max(PeakExpr(c), NetExpr(c) - 1 + Max(PeakStmt(names, yes), NetStmt(names, yes) + PeakStmt(names, no)))
  {
    hide *;
    IfGrow(t, names, c, yes, no);
    IfNet(names, c, yes, no);
    IfPeak(names, c, yes, no);
  }

  lemma IfGrow(t: Tables, names: seq<string>, c: Expr, yes: Stmt, no: Stmt)
    ensures GrowStmt(t, names, IfThen(c, yes)) == GrowStmt(GrowExpr(t, names, c), names, yes)
    ensures GrowStmt(t, names, IfElse(c, yes, no)) == GrowStmt(GrowStmt(GrowExpr(t, names, c), names, yes), names, no)
  {
    hide GrowExpr, Declared;
  }

  lemma IfNet(names: seq<string>, c: Expr, yes: Stmt, no: Stmt)
    ensures NetStmt(names, IfThen(c, yes)) == NetExpr(c) - 1 + NetStmt(names, yes)
    ensures NetStmt(names, IfElse(c, yes, no)) == NetExpr(c) - 1 + NetStmt(names, yes) + NetStmt(names, no)
  {
    hide NetExpr, Declared;
  }

  lemma IfPeak(names: seq<string>, c: Expr, yes: Stmt, no: Stmt)
    ensures PeakStmt(names, IfThen(c, yes)) == Max(PeakExpr(c), NetExpr(c) - 1 + PeakStmt(names, yes))
    ensures PeakStmt(names, IfElse(c, yes, no))
         == Max(PeakExpr(c), NetExpr(c) - 1 + Max(PeakStmt(names, yes), NetStmt(names, yes) + PeakStmt(names, no)))
  {
    hide NetExpr, PeakExpr, NetStmt, Declared;
  }

  lemma {:induction false} EmitIfElse(u: Output, names: seq<string>, loop: LoopInfo, c: Expr, yes: Stmt, no: Stmt)
    ensures var u1 := EmitJump(AfterExpr(u, names, c), CODE_JUMP_IF);
            var u2 := EmitJump(AfterStmt(u1, names, loop, yes), CODE_JUMP);
            && 2 <= |u1.code| <= |u2.code|
            && var u3 := AfterStmt(PatchJump(u2, |u1.code| - 2), names, loop, no);
            && |u2.code| <= |u3.code|
            && PatchJump(u3, |u2.code| - 2) == AfterStmt(u, names, loop, IfElse(c, yes, no))
  {
    hide *;
    var u0 := AfterExpr(u, names, c);
    var u1 := EmitJump(u0, CODE_JUMP_IF);
    var uy := AfterStmt(u1, names, loop, yes);
    var u2 := EmitJump(uy, CODE_JUMP);
    var t1 := GrowExpr(u.tables, names, c);
    var t2 := GrowStmt(t1, names, yes);
    var t3 := GrowStmt(t2, names, no);
    AfterIs(u, names, c);
    JumpIs(u0, CODE_JUMP_IF);
    AfterStmtIs(u1, names, loop, yes);
    JumpIs(uy, CODE_JUMP);
    GrowCovers(u.tables, names, c);
    GrowCoversStmt(t1, names, yes);
    GrowCoversStmt(t2, names, no);
    ExtendsTrans(t1, t2, t3);
    StableExpr(t1, t3, names, c);
    StableStmt(t2, t3, names, |u1.code|, loop, yes);
    var gc, gy := GenExpr(t3, names, c), GenStmt(t3, names, |u1.code|, loop, yes);
    var test := GenJump(CODE_JUMP_IF, |gy| + 3);
    var skip: seq<byte> := [CODE_JUMP] + [0xff, 0xff];
    Assoc(u.code + gc + ([CODE_JUMP_IF] + [0xff, 0xff]), gy, skip);
    PatchForward(u.code + gc, CODE_JUMP_IF, gy + skip, u2);
    var u3 := PatchJump(u2, |u1.code| - 2);
    AfterStmtIs(u3, names, loop, no);
    var gn := GenStmt(t3, names, |u2.code|, loop, no);
    Assoc(u.code + gc + test, gy, skip);
    PatchForward(u.code + gc + test + gy, CODE_JUMP, gn, AfterStmt(u3, names, loop, no));
    AfterStmtIs(u, names, loop, IfElse(c, yes, no));
    IfElseForm(t3, names, |u.code|, loop, c, yes, no);
    IfSlots(u.tables, names, c, yes, no);
    AssocCond(u.code, gc, test, gy, GenJump(CODE_JUMP, |gn|), gn);
    BranchesAssoc(gc, gy, gn);
    HigherIfElse(u.high, u.slots, PeakExpr(c), NetExpr(c), PeakStmt(names, yes), NetStmt(names, yes),
        PeakStmt(names, no));
  }

  lemma BranchesAssoc(gc: seq<byte>, gy: seq<byte>, gn: seq<byte>)
    ensures gc + GenBranches(gy, gn) == gc + GenJump(CODE_JUMP_IF, |gy| + 3) + gy + GenJump(CODE_JUMP, |gn|) + gn
  {
    hide GenJump;
  }

  lemma HigherIfElse(high: int, slots: int, peakC: nat, netC: int, peakY: nat, netY: int, peakN: nat)
    requires 1 <= netC <= peakC && 0 <= netY <= peakY
    ensures var s1 := slots + netC - 1;
            var h1 := Higher(Higher(high, slots + peakC), s1);
            var h2 := Higher(Higher(h1, s1 + peakY), s1 + netY);
            Higher(high, slots + Max(peakC, netC - 1 + Max(peakY, netY + peakN))) == Higher(h2, s1 + netY + peakN)
  {
  }

  // ----- Loops -----

  // The placeholders from offset [body] on now jump to the end of the code.
  function PatchLoop(u: Output, body: nat, upvalues: seq<nat>): Output
    requires body <= |u.code| && IsWalk(u.code[body..], upvalues)
  {
    u.(code := u.code[..body] + PatchBreaks(u.code[body..], upvalues, body, |u.code|))
  }

  // Ending a loop that starts at [start], whose test is the jump before [test] and
  // whose breaks are from [body] on, turns [u] into [u'].
  predicate EndsLoop(u: Output, start: nat, test: nat, body: nat, upvalues: seq<nat>, u': Output) {
    && start <= |u.code| && 2 <= test <= body <= |u.code|
    && var u2 := PatchJump(Emit(u, CODE_LOOP, Short(|u.code| + 3 - start)), test - 2);
    && IsWalk(u2.code[body..], upvalues) && PatchLoop(u2, body, upvalues) == u'
  }

  // The loop in [u] consists of [head], the test, [mid] and the body [b], which
  // patching turns into [b'].
  lemma LoopEnds(
      u: Output, pre: seq<byte>, head: seq<byte>, mid: seq<byte>, b: seq<byte>, upvalues: seq<nat>, b': seq<byte>)
    requires u.code == pre + head + ([CODE_JUMP_IF] + [0xff, 0xff]) + (mid + b)
    requires PatchesTo(b, upvalues, |pre| + |head| + 3 + |mid|, |u.code| + 3, b') && u.slots <= u.high
    ensures EndsLoop(u, |pre|, |pre| + |head| + 3, |pre| + |head| + 3 + |mid|, upvalues,
                     u.(code := pre + head + GenJump(CODE_JUMP_IF, |mid| + |b| + 3)
                           + (mid + b' + GenJump(CODE_LOOP, |u.code| + 3 - |pre|))))
  {
    hide *;
    var start, test := |pre|, |pre| + |head| + 3;
    var body := test + |mid|;
    var back := GenJump(CODE_LOOP, |u.code| + 3 - start);
    var front := pre + head + GenJump(CODE_JUMP_IF, |mid| + |b| + 3);
    var u2 := TestPatched(u, pre, head, mid + b);
    Assoc(mid, b, back);
    TailOf(u2.code, front, mid, b, back);
    PlainJump(CODE_LOOP, |u.code| + 3 - start, upvalues) by { LoopCodeIsJump(); }
    PlainPatches(back, upvalues, body + |b|, |u.code| + 3);
    PatchConcat(b, back, upvalues, body, |u.code| + 3, b', back);
    PatchLoopIs(u2, body, upvalues, b' + back);
    Assoc(front, mid, b' + back);
    Assoc(mid, b', back);
    EndsLoopIs(u, start, test, body, upvalues, u2);
  }

  // The jump back, and the test patched to jump over it.
  lemma TestPatched(u: Output, pre: seq<byte>, head: seq<byte>, rest: seq<byte>) returns (u2: Output)
    requires u.code == pre + head + ([CODE_JUMP_IF] + [0xff, 0xff]) + rest && u.slots <= u.high
    ensures |pre| + |head| + 3 <= |u.code|
    ensures |Emit(u, CODE_LOOP, Short(|u.code| + 3 - |pre|)).code| == |u.code| + 3
    ensures u2 == PatchJump(Emit(u, CODE_LOOP, Short(|u.code| + 3 - |pre|)), |pre| + |head| + 3 - 2)
    ensures u2
            == u.(code := pre + head + GenJump(CODE_JUMP_IF, |rest| + 3)
                 + (rest + GenJump(CODE_LOOP, |u.code| + 3 - |pre|)))
  {
    hide *;
    var back := GenJump(CODE_LOOP, |u.code| + 3 - |pre|);
    LoopOpIs(u, |u.code| + 3 - |pre|);
    var u1 := Emit(u, CODE_LOOP, Short(|u.code| + 3 - |pre|));
    Assoc(pre + head + ([CODE_JUMP_IF] + [0xff, 0xff]), rest, back);
    PatchForward(pre + head, CODE_JUMP_IF, rest + back, u1);
    u2 := PatchJump(u1, |pre| + |head| + 3 - 2);
  }

  lemma EndsLoopIs(u: Output, start: nat, test: nat, body: nat, upvalues: seq<nat>, u2: Output)
    requires start <= |u.code| && 2 <= test <= body <= |u.code|
    requires |Emit(u, CODE_LOOP, Short(|u.code| + 3 - start)).code| == |u.code| + 3
    requires u2 == PatchJump(Emit(u, CODE_LOOP, Short(|u.code| + 3 - start)), test - 2)
    requires body <= |u2.code| && IsWalk(u2.code[body..], upvalues)
    ensures EndsLoop(u, start, test, body, upvalues, PatchLoop(u2, body, upvalues))
  {
    hide IsWalk, PatchBreaks, Short, Emit, PatchLoop;
  }

  lemma LoopCodeIsJump()
    ensures CODE_JUMP <= CODE_LOOP <= CODE_OR
  {
  }

  lemma TailOf(code: seq<byte>, front: seq<byte>, mid: seq<byte>, b: seq<byte>, back: seq<byte>)
    requires code == front + (mid + b + back)
    ensures |front| + |mid| <= |code| && code[|front| + |mid|..] == b + back && code[..|front| + |mid|] == front + mid
  {
  }

  lemma LoopOpIs(u: Output, n: nat)
    requires u.slots <= u.high
    ensures Emit(u, CODE_LOOP, Short(n)) == u.(code := u.code + GenJump(CODE_LOOP, n))
  {
    hide Short;
  }

  lemma PatchLoopIs(u: Output, body: nat, upvalues: seq<nat>, tail: seq<byte>)
    requires body <= |u.code| && PatchesTo(u.code[body..], upvalues, body, |u.code|, tail)
    ensures IsWalk(u.code[body..], upvalues) && PatchLoop(u, body, upvalues) == u.(code := u.code[..body] + tail)
  {
    hide IsWalk, PatchBreaks;
  }

  lemma {:induction false} EmitWhile(
      u: Output, names: seq<string>, loop: LoopInfo, c: Expr, body: Stmt, upvalues: seq<nat>)
    ensures var u1 := EmitJump(AfterExpr(u, names, c), CODE_JUMP_IF);
            var u2 := AfterStmt(u1, names, LoopInfo(|u.code|, |names|, Pending), body);
            EndsLoop(u2, |u.code|, |u1.code|, |u1.code|, upvalues, AfterStmt(u, names, loop, Loop(c, body)))
  {
    hide *;
    var u0 := AfterExpr(u, names, c);
    var u1 := EmitJump(u0, CODE_JUMP_IF);
    var inner := LoopInfo(|u.code|, |names|, Pending);
    var u2 := AfterStmt(u1, names, inner, body);
    var t1 := GrowExpr(u.tables, names, c);
    var t := GrowStmt(t1, names, body);
    AfterIs(u, names, c);
    JumpIs(u0, CODE_JUMP_IF);
    AfterStmtIs(u1, names, inner, body);
    GrowCovers(u.tables, names, c);
    GrowCoversStmt(t1, names, body);
    StableExpr(t1, t, names, c);
    StmtSize(t, names, |u1.code|, inner, body);
    LoopSizes(names, 0, c, body, []);
    var end := |u.code| + SizeLoop(names, c, body);
    PatchStmt(t, names, |u1.code|, inner, body, upvalues, end);
    var gc, b := GenExpr(t, names, c), GenStmt(t, names, |u1.code|, inner, body);
    var b' := GenStmt(t, names, |u1.code|, inner.(exit := To(end)), body);
    PatchedSize(b, upvalues, |u1.code|, end, b');
    HigherStays(u2.high, u1.high, u1.slots, NetStmt(names, body), PeakStmt(names, body));
    assert [] + b == b && [] + b' == b';
    LoopEnds(u2, u.code, gc, [], b, upvalues, b');
    SimpleForms(t, names, |u.code|, loop, Loop(c, body));
    LoopForm(t, names, |u.code|, c, body);
    AfterStmtIs(u, names, loop, Loop(c, body));
    LoopSlots(u.tables, names, c, body);
    LoopAssoc(u.code, gc, GenJump(CODE_JUMP_IF, |b| + 3), b', GenJump(CODE_LOOP, SizeLoop(names, c, body)));
    HigherIs(u.high, u.slots, PeakExpr(c), NetExpr(c), PeakStmt(names, body));
  }

  lemma PatchedSize(code: seq<byte>, upvalues: seq<nat>, at: nat, end: nat, code': seq<byte>)
    requires PatchesTo(code, upvalues, at, end, code')
    ensures |code'| == |code|
  {
  }

  lemma HigherStays(high: int, high1: int, slots1: int, net: int, peak: nat)
    requires high == Higher(high1, slots1 + peak) && net <= peak
    ensures slots1 + net <= high
  {
  }

  lemma LoopAssoc(u: seq<byte>, a: seq<byte>, b: seq<byte>, c: seq<byte>, d: seq<byte>)
    ensures u + a + b + (c + d) == u + (a + b + c + d)
  {
  }

  lemma LoopSlots(t: Tables, names: seq<string>, c: Expr, body: Stmt)
    ensures GrowStmt(t, names, Loop(c, body)) == GrowStmt(GrowExpr(t, names, c), names, body)
    ensures NetStmt(names, Loop(c, body)) == NetExpr(c) - 1 + NetStmt(names, body)
    ensures PeakStmt(names, Loop(c, body)) == Max(PeakExpr(c), NetExpr(c) - 1 + PeakStmt(names, body))
  {
    hide GrowExpr, NetExpr, PeakExpr, Declared;
  }

  // The hidden locals of a for statement are in slots [n] and [n + 1].
  function EmitAdvance(u: Output, n: nat): Output {
    Emit(EmitCall(EmitLoadLocal(EmitLoadLocal(u, n), n + 1), 1, ITERATE), CODE_STORE_LOCAL, [(n + 1) % 256])
  }

  function EmitItem(u: Output, n: nat): Output {
    EmitCall(EmitLoadLocal(EmitLoadLocal(u, n), n + 1), 1, ITERATOR_VALUE)
  }

  lemma HiddenCallIs(u: Output, n: nat, name: string)
    ensures var t := NeedMethod(u.tables, name);
            EmitCall(EmitLoadLocal(EmitLoadLocal(u, n), n + 1), 1, name)
            == Output(u.code + (GenLoadLocal(n) + GenLoadLocal(n + 1) + GenCall(t, 1, name)), t, u.slots + 1,
               Higher(u.high, u.slots + 2))
  {
    hide *;
    var u1 := EmitLoadLocal(u, n);
    EmitLoadLocalIs(u, n);
    EmitLoadLocalIs(u1, n + 1);
    CallIs(EmitLoadLocal(u1, n + 1), 1, name);
    HigherTwice(u.high, u.slots);
    var t := NeedMethod(u.tables, name);
    Assoc(u.code, GenLoadLocal(n), GenLoadLocal(n + 1));
    Assoc(u.code, GenLoadLocal(n) + GenLoadLocal(n + 1), GenCall(t, 1, name));
  }

  lemma HigherTwice(high: int, slots: int)
    ensures Higher(Higher(Higher(high, slots + 1), slots + 1 + 1), slots + 1 + 1 - 1) == Higher(high, slots + 2)
  {
  }

  lemma AdvancedIs(u: Output, n: nat)
    ensures var t := NeedMethod(u.tables, ITERATE);
            EmitAdvance(u, n) == Output(u.code + GenAdvance(t, n), t, u.slots + 1, Higher(u.high, u.slots + 2))
  {
    hide NeedMethod, EmitCall, EmitLoadLocal, GenLoadLocal, GenCall;
    HiddenCallIs(u, n, ITERATE);
    Assoc(u.code, GenLoadLocal(n) + GenLoadLocal(n + 1) + GenCall(NeedMethod(u.tables, ITERATE), 1, ITERATE),
        GenStoreLocal(n + 1));
  }

  lemma ItemIs(u: Output, n: nat)
    ensures var t := NeedMethod(u.tables, ITERATOR_VALUE);
            EmitItem(u, n) == Output(u.code + GenItem(t, n), t, u.slots + 1, Higher(u.high, u.slots + 2))
  {
    hide NeedMethod, EmitCall, EmitLoadLocal, GenLoadLocal, GenCall;
    HiddenCallIs(u, n, ITERATOR_VALUE);
  }

  // What a for statement has emitted when its body is done, before its loop ends.
  function ForHead(u: Output, names: seq<string>, sequence: Expr): Output {
    Emit(AfterExpr(u, names, sequence), CODE_NULL, [])
  }

  function ForTest(u1: Output, n: nat): Output {
    EmitJump(EmitAdvance(u1, n), CODE_JUMP_IF)
  }

  function ForBody(u1: Output, names: seq<string>, x: string, body: Stmt): Output {
    var u3 := AfterStmt(EmitItem(ForTest(u1, |names|), |names|), ForNames(names, x),
        LoopInfo(|u1.code|, |names| + 2, Pending), body);
    Discard(u3, 1).(slots := u3.slots - 1)
  }

  // The tables of a for statement when its body starts.
  function ForTables(t: Tables, names: seq<string>, sequence: Expr): Tables {
    NeedMethod(NeedMethod(GrowExpr(t, names, sequence), ITERATE), ITERATOR_VALUE)
  }

  lemma {:induction false} EmitFor(
      u: Output, names: seq<string>, loop: LoopInfo, x: string, sequence: Expr, body: Stmt, upvalues: seq<nat>)
    returns (done: Output)
    ensures var u1 := ForHead(u, names, sequence);
            && EndsLoop(ForBody(u1, names, x, body), |u1.code|, |ForTest(u1, |names|).code|,
                        |EmitItem(ForTest(u1, |names|), |names|).code|, upvalues, done)
            && Discard(done, 2).(slots := done.slots - 2) == AfterStmt(u, names, loop, ForIn(x, sequence, body))
  {
    hide *;
    var u1 := ForHead(u, names, sequence);
    var t := GrowStmt(ForTables(u.tables, names, sequence), ForNames(names, x), body);
    var atB := |u1.code| + BodyOffset(names);
    var inner := LoopInfo(|u1.code|, |names| + 2, Pending);
    var end := |u1.code| + SizeForLoop(names, x, body);
    var b := GenStmt(t, ForNames(names, x), atB, inner, body);
    var b' := GenStmt(t, ForNames(names, x), atB, inner.(exit := To(end)), body);
    ForCodeIs(u, names, x, sequence, body);
    StmtSize(t, ForNames(names, x), atB, inner, body);
    LoopSizes(names, 0, sequence, body, x);
    PatchStmt(t, ForNames(names, x), atB, inner, body, upvalues, end);
    PatchPop(b, upvalues, atB, end, b');
    var advance, item := GenAdvance(t, |names|), GenItem(t, |names|);
    var u3 := ForBody(u1, names, x, body);
    ForLoopForm(t, names, |u1.code|, x, body);
    Assoc(item, b, [CODE_POP]);
    Assoc(item, b', [CODE_POP]);
    LoopEnds(u3, u1.code, advance, item, b + [CODE_POP], upvalues, b' + [CODE_POP]);
    done := u3.(code := u1.code + GenForLoop(t, names, |u1.code|, x, body));
    LoopAssoc(u1.code, advance, GenJump(CODE_JUMP_IF, |item| + |b| + 1 + 3), item + b' + [CODE_POP],
        GenJump(CODE_LOOP, SizeForLoop(names, x, body)));
    ForDone(u, names, loop, x, sequence, body, done);
  }

  lemma PatchPop(b: seq<byte>, upvalues: seq<nat>, at: nat, end: nat, b': seq<byte>)
    requires PatchesTo(b, upvalues, at, end, b')
    ensures PatchesTo(b + [CODE_POP], upvalues, at, end, b' + [CODE_POP]) && |b'| == |b|
  {
    hide PatchesTo, Plain;
    PlainOne([CODE_POP], upvalues);
    PlainPatches([CODE_POP], upvalues, at + |b|, end);
    PatchConcat(b, [CODE_POP], upvalues, at, end, b', [CODE_POP]);
  }

  // The code before the jump back, with every part compiled against the final
  // tables.
  lemma {:induction false} ForCodeIs(u: Output, names: seq<string>, x: string, sequence: Expr, body: Stmt)
    ensures var n := |names|;
            var u1 := ForHead(u, names, sequence);
            var u3 := ForBody(u1, names, x, body);
            var t := GrowStmt(ForTables(u.tables, names, sequence), ForNames(names, x), body);
            var inner := LoopInfo(|u1.code|, n + 2, Pending);
            && u1.code == u.code + GenExpr(t, names, sequence) + [CODE_NULL]
            && |ForTest(u1, n).code| == |u1.code| + |GenAdvance(t, n)| + 3
            && |EmitItem(ForTest(u1, n), n).code| == |u1.code| + |GenAdvance(t, n)| + 3 + |GenItem(t, n)|
            && |u1.code| + |GenAdvance(t, n)| + 3 + |GenItem(t, n)| == |u1.code| + BodyOffset(names)
            && u3.code == u1.code + GenAdvance(t, n) + ([CODE_JUMP_IF] + [0xff, 0xff])
                          + (GenItem(t, n)
                              + (GenStmt(t, ForNames(names, x), |u1.code| + BodyOffset(names), inner, body)
                                  + [CODE_POP]))
            && u3.tables == t && u3.slots <= u3.high
            && u3.slots == u.slots + NetExpr(sequence) + NetStmt(ForNames(names, x), body) + 1
            && u3.high
               == Higher(u.high,
                  u.slots + Max(PeakExpr(sequence), NetExpr(sequence) + Max(3, 2 + PeakStmt(ForNames(names, x), body))))
  {
    hide *;
    var n, names' := |names|, ForNames(names, x);
    var t0 := GrowExpr(u.tables, names, sequence);
    var t1 := NeedMethod(t0, ITERATE);
    var t2 := NeedMethod(t1, ITERATOR_VALUE);
    var t := GrowStmt(t2, names', body);
    var u1 := ForHead(u, names, sequence);
    var uA := EmitAdvance(u1, n);
    var uT := ForTest(u1, n);
    var uI := EmitItem(uT, n);
    ForUnfolds(u, u1, names, x, sequence, body);
    AfterIs(u, names, sequence);
    EmitAfter(AfterExpr(u, names, sequence), CODE_NULL);
    AdvancedIs(u1, n);
    JumpIs(uA, CODE_JUMP_IF);
    ItemIs(uT, n);
    AfterStmtIs(uI, names', LoopInfo(|u1.code|, n + 2, Pending), body);
    ForStable(u.tables, names, x, sequence, body);
    ForLoopForm(t, names, 0, x, body);
    var b := GenStmt(t, names', |u1.code| + BodyOffset(names), LoopInfo(|u1.code|, n + 2, Pending), body);
    ForAssoc(u1.code + GenAdvance(t, n) + ([CODE_JUMP_IF] + [0xff, 0xff]), GenItem(t, n), b, [CODE_POP]);
    HigherFor(u.high, u.slots, PeakExpr(sequence), NetExpr(sequence), PeakStmt(names', body), NetStmt(names', body));
  }

  lemma ForAssoc(a: seq<byte>, b: seq<byte>, c: seq<byte>, d: seq<byte>)
    ensures a + b + c + d == a + (b + (c + d))
  {
  }

  lemma ForUnfolds(u: Output, u1: Output, names: seq<string>, x: string, sequence: Expr, body: Stmt)
    ensures ForHead(u, names, sequence) == Emit(AfterExpr(u, names, sequence), CODE_NULL, [])
    ensures ForTest(u1, |names|) == EmitJump(EmitAdvance(u1, |names|), CODE_JUMP_IF)
    ensures var u3 := AfterStmt(EmitItem(ForTest(u1, |names|), |names|), ForNames(names, x),
            LoopInfo(|u1.code|, |names| + 2, Pending), body);
            ForBody(u1, names, x, body) == u3.(code := u3.code + [CODE_POP], slots := u3.slots - 1)
    ensures ForTables(u.tables, names, sequence)
            == NeedMethod(NeedMethod(GrowExpr(u.tables, names, sequence), ITERATE), ITERATOR_VALUE)
  {
    hide AfterStmt, AfterExpr, EmitJump, EmitAdvance, EmitItem, Emit, NeedMethod;
    assert Pops(1) == [CODE_POP];
  }

  lemma {:induction false} ForStable(t: Tables, names: seq<string>, x: string, sequence: Expr, body: Stmt)
    ensures var t0 := GrowExpr(t, names, sequence);
            var t1 := NeedMethod(t0, ITERATE);
            var t2 := NeedMethod(t1, ITERATOR_VALUE);
            var t' := GrowStmt(t2, ForNames(names, x), body);
            && GenExpr(t0, names, sequence) == GenExpr(t', names, sequence)
            && GenAdvance(t1, |names|) == GenAdvance(t', |names|)
            && GenItem(t2, |names|) == GenItem(t', |names|)
  {
    hide *;
    var t0 := GrowExpr(t, names, sequence);
    var t1 := NeedMethod(t0, ITERATE);
    var t2 := NeedMethod(t1, ITERATOR_VALUE);
    var t' := GrowStmt(t2, ForNames(names, x), body);
    GrowCovers(t, names, sequence);
    NeedExtends(t0, names, ITERATE, Null);
    NeedExtends(t1, names, ITERATOR_VALUE, Null);
    GrowCoversStmt(t2, ForNames(names, x), body);
    ExtendsTrans(t1, t2, t');
    ExtendsTrans(t0, t1, t');
    StableExpr(t0, t', names, sequence);
    StableMethod(t1, t', 1, ITERATE);
    StableMethod(t2, t', 1, ITERATOR_VALUE);
    AdvanceIs(t1, |names|);
    AdvanceIs(t2, |names|);
    AdvanceIs(t', |names|);
  }

  lemma HigherFor(high: int, slots: int, peakS: nat, netS: int, peakB: nat, netB: int)
    requires 1 <= netS <= peakS && 0 <= netB <= peakB
    ensures var s := slots + netS;
            var h1 := Higher(Higher(high, slots + peakS), s + 1);
            var h2 := Higher(Higher(h1, s + 1 + 2), s + 1 + 1 - 1);
            var h3 := Higher(Higher(h2, s + 1 + 1 - 1 + 2), s + 1 + 1 - 1 + 1 + peakB);
            h3 == Higher(high, slots + Max(peakS, netS + Max(3, 2 + peakB))) && s + 1 + netB <= h3
  {
  }

  lemma ForDone(u: Output, names: seq<string>, loop: LoopInfo, x: string, sequence: Expr, body: Stmt, done: Output)
    requires var u1 := ForHead(u, names, sequence);
             var t := GrowStmt(ForTables(u.tables, names, sequence), ForNames(names, x), body);
             && u1.code == u.code + GenExpr(t, names, sequence) + [CODE_NULL]
             && done.code == u1.code + GenForLoop(t, names, |u1.code|, x, body) && done.tables == t
             && done.slots == u.slots + NetExpr(sequence) + NetStmt(ForNames(names, x), body) + 1
             && done.high
                == Higher(u.high,
                   u.slots
                       + Max(PeakExpr(sequence), NetExpr(sequence) + Max(3, 2 + PeakStmt(ForNames(names, x), body))))
    ensures Discard(done, 2).(slots := done.slots - 2) == AfterStmt(u, names, loop, ForIn(x, sequence, body))
  {
    hide *;
    var t := GrowStmt(ForTables(u.tables, names, sequence), ForNames(names, x), body);
    ForUnfolds(u, u, names, x, sequence, body);
    GrowForInIs(u.tables, names, x, sequence, body);
    AfterStmtIs(u, names, loop, ForIn(x, sequence, body));
    ForInForm(t, names, |u.code|, loop, x, sequence, body);
    ForInNet(names, x, sequence, body);
    DiscardIs(done, 2);
    var ge, gl := GenExpr(t, names, sequence),
        GenForLoop(t, names, |u.code| + |GenExpr(t, names, sequence)| + 1, x, body);
    AssocFor(u.code, ge, [CODE_NULL], gl, Pops(2));
  }

  lemma AssocFor(a: seq<byte>, b: seq<byte>, c: seq<byte>, d: seq<byte>, e: seq<byte>)
    ensures a + b + c + d + e == a + (b + c + d + e)
  {
  }

  lemma DiscardIs(u: Output, n: int)
    ensures Discard(u, n) == u.(code := u.code + Pops(n))
  {
  }

  lemma ForInNet(names: seq<string>, x: string, sequence: Expr, body: Stmt)
    ensures NetStmt(names, ForIn(x, sequence, body)) == NetExpr(sequence) + NetStmt(ForNames(names, x), body) - 1
    ensures PeakStmt(names, ForIn(x, sequence, body))
         == Max(PeakExpr(sequence), NetExpr(sequence) + Max(3, 2 + PeakStmt(ForNames(names, x), body)))
  {
    hide NetExpr, PeakExpr, ForNames;
  }
}
