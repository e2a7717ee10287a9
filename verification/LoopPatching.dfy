/** Turning the placeholders of break statements into jumps, once the end of their
    loop is known. */
module LoopPatching {
  import opened Syntax
  import opened Semantics
  import opened Bytes
  import opened Bytecode
  import opened CodeGen

  // ----- Walking the code of a loop -----

  // The distance from one instruction to the next inside a loop body, where
  // CODE_END stands for a jump to the end of the loop.
  function Stride(code: seq<byte>, upvalues: seq<nat>): (r: nat)
    requires code != []
    ensures r > 0
  {
    if code[0] == CODE_END then 3 else InstructionLength(code, upvalues)
  }

  // [code] is a sequence of whole instructions and placeholders.
  predicate IsWalk(code: seq<byte>, upvalues: seq<nat>) {
    code == [] ||
    (var n := Stride(code, upvalues);
     code[0] <= CODE_END && n <= |code| && IsWalk(code[n..], upvalues))
  }

  // An instruction of [code] starts at [i].
  predicate IsStart(code: seq<byte>, upvalues: seq<nat>, i: nat)
    requires IsWalk(code, upvalues)
  {
    code != [] &&
    (i == 0 || (var n := Stride(code, upvalues); i >= n && IsStart(code[n..], upvalues, i - n)))
  }

  // A placeholder of [code] starts at [i].
  predicate IsBreak(code: seq<byte>, upvalues: seq<nat>, i: nat)
    requires IsWalk(code, upvalues)
  {
    IsStart(code, upvalues, i) && i < |code| && code[i] == CODE_END
  }

  // [code], which is at offset [at], with its placeholders replaced by jumps to
  // [end].
  function PatchBreaks(code: seq<byte>, upvalues: seq<nat>, at: nat, end: nat): (r: seq<byte>)
    requires IsWalk(code, upvalues)
    ensures |r| == |code|
  {
    if code == [] then []
    else
      var n := Stride(code, upvalues);
      (if code[0] == CODE_END then GenJump(CODE_JUMP, end - (at + 3)) else code[..n])
      + PatchBreaks(code[n..], upvalues, at + n, end)
  }

  // The jump that some placeholder of [code] becomes is longer than [limit].
  predicate BreakTooFar(code: seq<byte>, upvalues: seq<nat>, at: nat, end: nat, limit: nat)
    requires IsWalk(code, upvalues)
  {
    code != [] &&
    ((code[0] == CODE_END && end - (at + 3) > limit)
     || BreakTooFar(code[Stride(code, upvalues)..], upvalues, at + Stride(code, upvalues), end, limit))
  }

  // One step of a walk, and of patching.
  lemma WalkStep(code: seq<byte>, upvalues: seq<nat>, at: nat, end: nat)
    requires code != []
    ensures var n := Stride(code, upvalues);
            && (IsWalk(code, upvalues) <==> code[0] <= CODE_END && n <= |code| && IsWalk(code[n..], upvalues))
            && (IsWalk(code, upvalues) ==>
                  PatchBreaks(code, upvalues, at, end)
                  == (if code[0] == CODE_END then GenJump(CODE_JUMP, end - (at + 3)) else code[..n])
                     + PatchBreaks(code[n..], upvalues, at + n, end))
  {
    hide GenJump;
  }

  lemma BreakStep(code: seq<byte>, upvalues: seq<nat>, i: nat)
    requires code != [] && IsWalk(code, upvalues) && i < |code|
    ensures var n := Stride(code, upvalues);
            && (i < n ==> (IsBreak(code, upvalues, i) <==> i == 0 && code[0] == CODE_END))
            && (i >= n ==> n <= |code| && IsWalk(code[n..], upvalues)
                           && (IsBreak(code, upvalues, i) <==> IsBreak(code[n..], upvalues, i - n)))
  {
    hide InstructionLength;
  }

  // Every placeholder becomes a jump that lands at [end], and no other byte changes.
  lemma {:induction false} PatchExact(code: seq<byte>, upvalues: seq<nat>, at: nat, end: nat, i: nat)
    requires IsWalk(code, upvalues) && i < |code|
    ensures IsBreak(code, upvalues, i) ==>
              i + 3 <= |code|
                  && PatchBreaks(code, upvalues, at, end)[i..i + 3] == GenJump(CODE_JUMP, end - (at + i + 3))
    ensures !IsBreak(code, upvalues, i) && !(i >= 1 && IsBreak(code, upvalues, i - 1))
            && !(i >= 2 && IsBreak(code, upvalues, i - 2)) ==>
              PatchBreaks(code, upvalues, at, end)[i] == code[i]
    decreases |code|
  {
    hide IsWalk, IsBreak, GenJump, PatchBreaks, InstructionLength;
    var n := Stride(code, upvalues);
    WalkStep(code, upvalues, at, end);
    BreakStep(code, upvalues, i);
    BreakStep(code, upvalues, 0);
    if i >= n { PatchExact(code[n..], upvalues, at + n, end, i - n); }
    if i >= 1 { BreakStep(code, upvalues, i - 1); }
    if i >= 2 { BreakStep(code, upvalues, i - 2); }
    if IsBreak(code, upvalues, i) {
      PatchedHere(code, upvalues, at, end, i);
    } else if i >= n {
      assert PatchBreaks(code, upvalues, at, end)[i] == PatchBreaks(code[n..], upvalues, at + n, end)[i - n];
    }
  }

  // A placeholder that is too far from the end is found, and only that.
  lemma {:induction false} TooFarExact(code: seq<byte>, upvalues: seq<nat>, at: nat, end: nat, limit: nat)
    requires IsWalk(code, upvalues)
    ensures BreakTooFar(code, upvalues, at, end, limit)
            <==> exists i :: 0 <= i < |code| && IsBreak(code, upvalues, i) && end - (at + i + 3) > limit
    decreases |code|
  {
    hide IsWalk, IsBreak, InstructionLength;
    if code != [] {
      var n := Stride(code, upvalues);
      WalkStep(code, upvalues, at, end);
      TooFarExact(code[n..], upvalues, at + n, end, limit);
      BreakStep(code, upvalues, 0);
      forall i | 0 <= i < |code|
        ensures i < n ==> (IsBreak(code, upvalues, i) <==> i == 0 && code[0] == CODE_END)
        ensures i >= n ==> (IsBreak(code, upvalues, i) <==> IsBreak(code[n..], upvalues, i - n))
      {
        BreakStep(code, upvalues, i);
      }
      if i :| 0 <= i < |code[n..]| && IsBreak(code[n..], upvalues, i) && end - (at + n + i + 3) > limit {
        assert IsBreak(code, upvalues, n + i);
      }
    }
  }

  // The first case of PatchExact, from the same fact about the rest of the code.
  lemma PatchedHere(code: seq<byte>, upvalues: seq<nat>, at: nat, end: nat, i: nat)
    requires IsWalk(code, upvalues) && i < |code| && IsBreak(code, upvalues, i)
    requires var n := Stride(code, upvalues);
             n <= |code| && IsWalk(code[n..], upvalues) &&
             (i >= n ==>
                i + 3 <= |code|
                && PatchBreaks(code[n..], upvalues, at + n, end)[i - n..i - n + 3]
                   == GenJump(CODE_JUMP, end - (at + i + 3)))
    ensures i + 3 <= |code| && PatchBreaks(code, upvalues, at, end)[i..i + 3] == GenJump(CODE_JUMP, end - (at + i + 3))
  {
    hide IsWalk, IsBreak, GenJump, PatchBreaks, InstructionLength;
    var n := Stride(code, upvalues);
    WalkStep(code, upvalues, at, end);
    BreakStep(code, upvalues, i);
    var p, q := PatchBreaks(code, upvalues, at, end), PatchBreaks(code[n..], upvalues, at + n, end);
    if i >= n {
      assert p[i..i + 3] == q[i - n..i - n + 3];
    } else {
      assert p[0..3] == GenJump(CODE_JUMP, end - (at + 3));
    }
  }

  // The jump reads back as its whole distance exactly when that is below 2^16.
  lemma BreakLands(at: nat, end: nat)
    requires at + 3 <= end
    ensures GenJump(CODE_JUMP, end - (at + 3))[0] == CODE_JUMP
    ensures at + 3 + ReadShort(GenJump(CODE_JUMP, end - (at + 3)), 1) == end <==> end - (at + 3) < 0x1_0000
  {
    ShortRoundTrip(end - (at + 3));
  }

  // ----- Instructions that are not placeholders -----

  // Whole instructions, none of them a placeholder.
  predicate Plain(code: seq<byte>, upvalues: seq<nat>) {
    code == [] ||
    (var n := InstructionLength(code, upvalues);
     code[0] < CODE_END && n <= |code| && Plain(code[n..], upvalues))
  }

  lemma {:induction false} PlainUnpatched(code: seq<byte>, upvalues: seq<nat>, at: nat, end: nat)
    requires Plain(code, upvalues)
    ensures IsWalk(code, upvalues) && PatchBreaks(code, upvalues, at, end) == code
    decreases |code|
  {
    hide InstructionLength, GenJump, PatchBreaks, IsWalk;
    if code == [] {
      WalkEmpty(upvalues, at, end);
    } else {
      var n := InstructionLength(code, upvalues);
      PlainUnpatched(code[n..], upvalues, at + n, end);
      WalkStep(code, upvalues, at, end);
      Slices(code, [], n);
    }
  }

  lemma {:induction false} WalkConcat(a: seq<byte>, b: seq<byte>, upvalues: seq<nat>, at: nat, end: nat)
    requires IsWalk(a, upvalues) && IsWalk(b, upvalues)
    ensures IsWalk(a + b, upvalues)
    ensures PatchBreaks(a + b, upvalues, at, end)
            == PatchBreaks(a, upvalues, at, end) + PatchBreaks(b, upvalues, at + |a|, end)
    decreases |a|
  {
    hide *;
    if a == [] {
      assert a + b == b;
      WalkEmpty(upvalues, at, end);
      assert PatchBreaks(a, upvalues, at, end) + PatchBreaks(b, upvalues, at, end) == PatchBreaks(b, upvalues, at, end);
    } else {
      var n := Stride(a, upvalues);
      WalkStep(a, upvalues, at, end);
      StridePrefix(a, b, upvalues);
      Slices(a, b, n);
      WalkConcat(a[n..], b, upvalues, at + n, end);
      WalkStep(a + b, upvalues, at, end);
      Assoc(if a[0] == CODE_END then GenJump(CODE_JUMP, end - (at + 3)) else a[..n],
            PatchBreaks(a[n..], upvalues, at + n, end), PatchBreaks(b, upvalues, at + |a|, end));
    }
  }

  lemma WalkEmpty(upvalues: seq<nat>, at: nat, end: nat)
    ensures IsWalk([], upvalues) && PatchBreaks([], upvalues, at, end) == []
  {
  }

  lemma Assoc(a: seq<byte>, b: seq<byte>, c: seq<byte>)
    ensures a + b + c == a + (b + c)
  {
  }

  lemma Slices(a: seq<byte>, b: seq<byte>, n: nat)
    requires n <= |a|
    ensures (a + b)[n..] == a[n..] + b && (a + b)[..n] == a[..n] && a[..n] + a[n..] == a
  {
  }

  lemma StridePrefix(a: seq<byte>, b: seq<byte>, upvalues: seq<nat>)
    requires a != [] && Stride(a, upvalues) <= |a|
    ensures Stride(a + b, upvalues) == Stride(a, upvalues)
  {
    if a[0] != CODE_END { LengthPrefix(a, b, upvalues); }
  }

  // ----- The code of expressions and statements -----

  lemma {:induction false} PlainConcat(a: seq<byte>, b: seq<byte>, upvalues: seq<nat>)
    requires Plain(a, upvalues) && Plain(b, upvalues)
    ensures Plain(a + b, upvalues)
    decreases |a|
  {
    hide InstructionLength;
    if a == [] {
      assert a + b == b;
    } else {
      var n := InstructionLength(a, upvalues);
      LengthPrefix(a, b, upvalues);
      Slices(a, b, n);
      PlainConcat(a[n..], b, upvalues);
    }
  }

  lemma PlainConcat3(a: seq<byte>, b: seq<byte>, c: seq<byte>, upvalues: seq<nat>)
    requires Plain(a, upvalues) && Plain(b, upvalues) && Plain(c, upvalues)
    ensures Plain(a + b, upvalues) && Plain(a + b + c, upvalues)
  {
    hide Plain;
    PlainConcat(a, b, upvalues);
    PlainConcat(a + b, c, upvalues);
  }

  // A single instruction.
  lemma PlainOne(code: seq<byte>, upvalues: seq<nat>)
    requires code != [] && code[0] < CODE_END && code[0] != CODE_CLOSURE && |code| == 1 + FixedOperands(code[0])
    ensures Plain(code, upvalues)
  {
    assert code[|code|..] == [];
  }

  lemma PlainJump(op: byte, n: int, upvalues: seq<nat>)
    requires CODE_JUMP <= op <= CODE_OR
    ensures Plain(GenJump(op, n), upvalues)
  {
    PlainOne(GenJump(op, n), upvalues);
  }

  lemma PlainCall(t: Tables, arity: nat, name: string, upvalues: seq<nat>)
    requires arity <= 16
    ensures Plain(GenCall(t, arity, name), upvalues)
  {
    PlainOne(GenCall(t, arity, name), upvalues);
  }

  lemma PlainVariables(t: Tables, names: seq<string>, x: string, slot: nat, upvalues: seq<nat>)
    ensures Plain(GenLoad(t, names, x), upvalues) && Plain(GenStore(t, names, x), upvalues)
    ensures Plain(GenLoadLocal(slot), upvalues) && Plain(GenStoreLocal(slot), upvalues)
  {
    hide Plain;
    PlainOne(GenLoadLocal(slot), upvalues);
    PlainOne(GenStoreLocal(slot), upvalues);
    PlainOne(GenLoad(t, names, x), upvalues);
    PlainOne(GenStore(t, names, x), upvalues);
  }

  lemma {:induction false} PlainPops(n: int, upvalues: seq<nat>)
    ensures Plain(Pops(n), upvalues)
  {
    hide Plain;
    if n > 0 {
      PlainPops(n - 1, upvalues);
      PlainOne([CODE_POP], upvalues);
      PlainConcat([CODE_POP], Pops(n - 1), upvalues);
    } else {
      PlainNothing(upvalues);
    }
  }

  lemma PlainNothing(upvalues: seq<nat>)
    ensures Plain([], upvalues)
  {
  }

  lemma {:induction false} PlainExpr(t: Tables, names: seq<string>, e: Expr, upvalues: seq<nat>)
    ensures Plain(GenExpr(t, names, e), upvalues)
    decreases e
  {
    hide Plain, GenCall, GenJump, GenLoad, GenStore, SizeExpr, GenLiteral, BinaryName, UnaryName, SetterName;
    match e
    case Lit(v) => PlainLiteral(t, v, upvalues);
    case Variable(x) => PlainVariables(t, names, x, 0, upvalues);
    case Assign(x, rhs) =>
      PlainExpr(t, names, rhs, upvalues);
      PlainVariables(t, names, x, 0, upvalues);
      PlainConcat(GenExpr(t, names, rhs), GenStore(t, names, x), upvalues);
    case Unary(uop, operand) =>
      PlainExpr(t, names, operand, upvalues);
      PlainThenCall(GenExpr(t, names, operand), t, 0, UnaryName(uop), upvalues);
    case Get(receiver, name) =>
      PlainExpr(t, names, receiver, upvalues);
      PlainThenCall(GenExpr(t, names, receiver), t, 0, name, upvalues);
    case Binary(op, l, r) =>
      PlainExpr(t, names, l, upvalues);
      PlainExpr(t, names, r, upvalues);
      PlainConcat(GenExpr(t, names, l), GenExpr(t, names, r), upvalues);
      PlainThenCall(GenExpr(t, names, l) + GenExpr(t, names, r), t, 1, BinaryName(op), upvalues);
    case Set(receiver, name, rhs) =>
      PlainExpr(t, names, receiver, upvalues);
      PlainExpr(t, names, rhs, upvalues);
      PlainConcat(GenExpr(t, names, receiver), GenExpr(t, names, rhs), upvalues);
      PlainThenCall(GenExpr(t, names, receiver) + GenExpr(t, names, rhs), t, 1, SetterName(name), upvalues);
    case And(l, r) =>
      PlainExpr(t, names, l, upvalues);
      PlainExpr(t, names, r, upvalues);
      PlainOver(GenExpr(t, names, l), CODE_AND, |GenExpr(t, names, r)|, GenExpr(t, names, r), upvalues);
    case Or(l, r) =>
      PlainExpr(t, names, l, upvalues);
      PlainExpr(t, names, r, upvalues);
      PlainOver(GenExpr(t, names, l), CODE_OR, |GenExpr(t, names, r)|, GenExpr(t, names, r), upvalues);
    case Cond(c, y, n) =>
      PlainExpr(t, names, c, upvalues);
      PlainExpr(t, names, y, upvalues);
      PlainExpr(t, names, n, upvalues);
      var gc, gy, gn := GenExpr(t, names, c), GenExpr(t, names, y), GenExpr(t, names, n);
      PlainOver(gc, CODE_JUMP_IF, |gy| + 3, gy, upvalues);
      PlainOver(gc + GenJump(CODE_JUMP_IF, |gy| + 3) + gy, CODE_JUMP, |gn|, gn, upvalues);
  }

  lemma PlainThenCall(a: seq<byte>, t: Tables, arity: nat, name: string, upvalues: seq<nat>)
    requires Plain(a, upvalues) && arity <= 16
    ensures Plain(a + GenCall(t, arity, name), upvalues)
  {
    hide *;
    PlainCall(t, arity, name, upvalues);
    PlainConcat(a, GenCall(t, arity, name), upvalues);
  }

  // Code that jumps over other code.
  lemma PlainOver(a: seq<byte>, op: byte, n: int, b: seq<byte>, upvalues: seq<nat>)
    requires Plain(a, upvalues) && Plain(b, upvalues) && CODE_JUMP <= op <= CODE_OR
    ensures Plain(a + GenJump(op, n) + b, upvalues)
  {
    hide Plain, GenJump;
    PlainJump(op, n, upvalues);
    PlainConcat3(a, GenJump(op, n), b, upvalues);
  }

  lemma PlainLiteral(t: Tables, v: Value, upvalues: seq<nat>)
    ensures Plain(GenLiteral(t, v), upvalues)
  {
    hide Plain;
    PlainOne(GenLiteral(t, v), upvalues);
  }


  // Once the ends of its loops are known, a statement has no placeholders.
  lemma {:induction false} PlainStmt(
      t: Tables, names: seq<string>, at: nat, loop: LoopInfo, s: Stmt, upvalues: seq<nat>)
    requires loop.exit.To?
    ensures Plain(GenStmt(t, names, at, loop, s), upvalues)
    decreases s, 0
  {
    hide *;
    match s
    case Skip => SimpleForms(t, names, at, loop, s); PlainNothing(upvalues);
    case Seq(first, rest) =>
      SeqForm(t, names, at, loop, first, rest);
      PlainStmt(t, names, at, loop, first, upvalues);
      var f := GenStmt(t, names, at, loop, first);
      PlainStmt(t, Declared(names, first), at + |f|, loop, rest, upvalues);
      PlainConcat(f, GenStmt(t, Declared(names, first), at + |f|, loop, rest), upvalues);
    case Evaluate(e) =>
      SimpleForms(t, names, at, loop, s);
      PlainExpr(t, names, e, upvalues);
      PlainEnds(GenExpr(t, names, e), upvalues);
    case Declare(x, e) =>
      SimpleForms(t, names, at, loop, s);
      PlainExpr(t, names, e, upvalues);
    case Give(e) =>
      SimpleForms(t, names, at, loop, s);
      PlainExpr(t, names, e, upvalues);
      PlainEnds(GenExpr(t, names, e), upvalues);
    case BreakLoop => PlainEscape(t, names, at, loop, s, upvalues);
    case ContinueLoop => PlainEscape(t, names, at, loop, s, upvalues);
    case Block(body) =>
      BlockForm(t, names, at, loop, body);
      PlainStmt(t, names, at, loop, body, upvalues);
      PlainPops(|Declared(names, body)| - |names|, upvalues);
      PlainConcat(GenStmt(t, names, at, loop, body), Pops(|Declared(names, body)| - |names|), upvalues);
    case IfThen(c, yes) =>
      IfThenForm(t, names, at, loop, c, yes);
      PlainExpr(t, names, c, upvalues);
      PlainStmt(t, names, at + SizeExpr(names, c) + 3, loop, yes, upvalues);
      var y := GenStmt(t, names, at + SizeExpr(names, c) + 3, loop, yes);
      PlainTest(GenExpr(t, names, c), |y|, y, upvalues);
    case IfElse(c, yes, no) =>
      IfElseForm(t, names, at, loop, c, yes, no);
      PlainExpr(t, names, c, upvalues);
      var at1 := at + SizeExpr(names, c) + 3;
      PlainStmt(t, names, at1, loop, yes, upvalues);
      var y := GenStmt(t, names, at1, loop, yes);
      PlainStmt(t, names, at1 + |y| + 3, loop, no, upvalues);
      PlainBranches(GenExpr(t, names, c), y, GenStmt(t, names, at1 + |y| + 3, loop, no), upvalues);
    case Loop(c, body) => PlainLoop(t, names, at, loop, c, body, upvalues);
    case ForIn(x, sequence, body) => PlainForIn(t, names, at, loop, x, sequence, body, upvalues);
  }

  lemma SimpleForms(t: Tables, names: seq<string>, at: nat, loop: LoopInfo, s: Stmt)
    ensures s.Skip? ==> GenStmt(t, names, at, loop, s) == []
    ensures s.Evaluate? ==> GenStmt(t, names, at, loop, s) == GenExpr(t, names, s.e) + [CODE_POP]
    ensures s.Give? ==> GenStmt(t, names, at, loop, s) == GenExpr(t, names, s.e) + [CODE_RETURN]
    ensures s.Declare? ==> GenStmt(t, names, at, loop, s) == GenExpr(t, names, s.init)
    ensures var p := Pops(|names| - loop.locals);
            && (s.BreakLoop? ==> GenStmt(t, names, at, loop, s) == p + GenBreak(at + |p|, loop.exit))
            && (s.ContinueLoop? ==> GenStmt(t, names, at, loop, s) == p + GenJump(CODE_LOOP, at + |p| + 3 - loop.start))
    ensures s.Loop? ==> GenStmt(t, names, at, loop, s) == GenLoop(t, names, at, s.cond, s.body)
  {
    hide GenExpr, Pops, GenJump, GenBreak, GenLoop;
  }

  lemma PlainEnds(a: seq<byte>, upvalues: seq<nat>)
    requires Plain(a, upvalues)
    ensures Plain(a + [CODE_POP], upvalues) && Plain(a + [CODE_RETURN], upvalues) && Plain(a + [CODE_NULL], upvalues)
  {
    hide Plain;
    PlainOne([CODE_POP], upvalues);
    PlainOne([CODE_RETURN], upvalues);
    PlainOne([CODE_NULL], upvalues);
    PlainConcat(a, [CODE_POP], upvalues);
    PlainConcat(a, [CODE_RETURN], upvalues);
    PlainConcat(a, [CODE_NULL], upvalues);
  }

  lemma PlainEscape(t: Tables, names: seq<string>, at: nat, loop: LoopInfo, s: Stmt, upvalues: seq<nat>)
    requires (s.BreakLoop? || s.ContinueLoop?) && loop.exit.To?
    ensures Plain(GenStmt(t, names, at, loop, s), upvalues)
  {
    hide Plain, Pops, GenStmt, GenJump;
    var p := Pops(|names| - loop.locals);
    SimpleForms(t, names, at, loop, s);
    PlainPops(|names| - loop.locals, upvalues);
    var jump := if s.BreakLoop? then GenJump(CODE_JUMP, loop.exit.offset - (at + |p| + 3))
                else GenJump(CODE_LOOP, at + |p| + 3 - loop.start);
    PlainJump(CODE_JUMP, loop.exit.offset - (at + |p| + 3), upvalues);
    PlainJump(CODE_LOOP, at + |p| + 3 - loop.start, upvalues);
    PlainConcat(p, jump, upvalues);
  }

  lemma PlainTest(c: seq<byte>, n: int, yes: seq<byte>, upvalues: seq<nat>)
    requires Plain(c, upvalues) && Plain(yes, upvalues)
    ensures Plain(c + GenJump(CODE_JUMP_IF, n) + yes, upvalues)
    ensures Plain(c + GenJump(CODE_JUMP_IF, n), upvalues)
    ensures Plain(yes + GenJump(CODE_LOOP, n), upvalues)
  {
    hide Plain, GenJump;
    PlainJump(CODE_JUMP_IF, n, upvalues);
    PlainJump(CODE_LOOP, n, upvalues);
    PlainConcat3(c, GenJump(CODE_JUMP_IF, n), yes, upvalues);
    PlainConcat(yes, GenJump(CODE_LOOP, n), upvalues);
  }

  lemma PlainBranches(c: seq<byte>, yes: seq<byte>, no: seq<byte>, upvalues: seq<nat>)
    requires Plain(c, upvalues) && Plain(yes, upvalues) && Plain(no, upvalues)
    ensures Plain(c + GenBranches(yes, no), upvalues)
  {
    hide Plain, GenJump;
    PlainJump(CODE_JUMP_IF, |yes| + 3, upvalues);
    PlainConcat(GenJump(CODE_JUMP_IF, |yes| + 3), yes, upvalues);
    PlainOver(GenJump(CODE_JUMP_IF, |yes| + 3) + yes, CODE_JUMP, |no|, no, upvalues);
    PlainConcat(c, GenBranches(yes, no), upvalues);
  }

  lemma {:induction false} PlainLoop(
      t: Tables, names: seq<string>, at: nat, loop: LoopInfo, c: Expr, body: Stmt, upvalues: seq<nat>)
    ensures Plain(GenStmt(t, names, at, loop, Loop(c, body)), upvalues)
    decreases body, 1
  {
    hide *;
    SimpleForms(t, names, at, loop, Loop(c, body));
    LoopForm(t, names, at, c, body);
    var size := SizeLoop(names, c, body);
    var inner := LoopInfo(at, |names|, To(at + size));
    PlainExpr(t, names, c, upvalues);
    PlainStmt(t, names, at + SizeExpr(names, c) + 3, inner, body, upvalues);
    var b := GenStmt(t, names, at + SizeExpr(names, c) + 3, inner, body);
    PlainTest(GenExpr(t, names, c), |b| + 3, b, upvalues);
    PlainTest(GenExpr(t, names, c), size, GenExpr(t, names, c) + GenJump(CODE_JUMP_IF, |b| + 3) + b, upvalues);
  }

  lemma {:induction false} PlainForIn(
      t: Tables, names: seq<string>, at: nat, loop: LoopInfo, x: string, sequence: Expr, body: Stmt, upvalues: seq<nat>)
    ensures Plain(GenStmt(t, names, at, loop, ForIn(x, sequence, body)), upvalues)
    decreases body, 2
  {
    hide *;
    ForInForm(t, names, at, loop, x, sequence, body);
    var at1 := at + SizeExpr(names, sequence) + 1;
    PlainExpr(t, names, sequence, upvalues);
    PlainEnds(GenExpr(t, names, sequence), upvalues);
    PlainForLoop(t, names, at1, x, body, upvalues);
    PlainPops(2, upvalues);
    PlainConcat3(GenExpr(t, names, sequence) + [CODE_NULL], GenForLoop(t, names, at1, x, body), Pops(2), upvalues);
  }

  lemma {:induction false} PlainForLoop(
      t: Tables, names: seq<string>, at: nat, x: string, body: Stmt, upvalues: seq<nat>)
    ensures Plain(GenForLoop(t, names, at, x, body), upvalues)
    decreases body, 1
  {
    hide *;
    ForLoopForm(t, names, at, x, body);
    var size := SizeForLoop(names, x, body);
    var inner := LoopInfo(at, |names| + 2, To(at + size));
    PlainStmt(t, ForNames(names, x), at + BodyOffset(names), inner, body, upvalues);
    var b := GenStmt(t, ForNames(names, x), at + BodyOffset(names), inner, body);
    var advance, item := GenAdvance(t, |names|), GenItem(t, |names|);
    PlainHidden(t, |names|, upvalues);
    PlainConcat(item, b, upvalues);
    PlainEnds(item + b, upvalues);
    PlainTest(advance, |item| + |b| + 1 + 3, item + b + [CODE_POP], upvalues);
    PlainTest(advance, size, advance + GenJump(CODE_JUMP_IF, |item| + |b| + 1 + 3) + (item + b + [CODE_POP]), upvalues);
  }

  lemma PlainHidden(t: Tables, n: nat, upvalues: seq<nat>)
    ensures Plain(GenAdvance(t, n), upvalues) && Plain(GenItem(t, n), upvalues)
  {
    hide Plain, GenCall, GenLoadLocal, GenStoreLocal;
    PlainVariables(t, [], [], n, upvalues);
    PlainVariables(t, [], [], n + 1, upvalues);
    PlainConcat(GenLoadLocal(n), GenLoadLocal(n + 1), upvalues);
    PlainThenCall(GenLoadLocal(n) + GenLoadLocal(n + 1), t, 1, ITERATE, upvalues);
    PlainThenCall(GenLoadLocal(n) + GenLoadLocal(n + 1), t, 1, ITERATOR_VALUE, upvalues);
    PlainConcat(GenLoadLocal(n) + GenLoadLocal(n + 1) + GenCall(t, 1, ITERATE), GenStoreLocal(n + 1), upvalues);
  }

  // ----- Patching compiled statements -----

  // [code] at [at] is a walk that patching turns into [patched].
  predicate PatchesTo(code: seq<byte>, upvalues: seq<nat>, at: nat, end: nat, patched: seq<byte>) {
    var walk := IsWalk(code, upvalues);
    walk && PatchBreaks(code, upvalues, at, end) == patched
  }

  lemma PlainPatches(code: seq<byte>, upvalues: seq<nat>, at: nat, end: nat)
    requires Plain(code, upvalues)
    ensures PatchesTo(code, upvalues, at, end, code)
  {
    hide Plain, IsWalk, PatchBreaks;
    PlainUnpatched(code, upvalues, at, end);
  }

  lemma PatchConcat(a: seq<byte>, b: seq<byte>, upvalues: seq<nat>, at: nat, end: nat, pa: seq<byte>, pb: seq<byte>)
    requires PatchesTo(a, upvalues, at, end, pa) && PatchesTo(b, upvalues, at + |a|, end, pb)
    ensures PatchesTo(a + b, upvalues, at, end, pa + pb) && |pa| == |a|
  {
    hide IsWalk, PatchBreaks;
    WalkConcat(a, b, upvalues, at, end);
  }

  lemma PatchPlaceholder(upvalues: seq<nat>, at: nat, end: nat)
    ensures PatchesTo(GenBreak(at, Pending), upvalues, at, end, GenBreak(at, To(end)))
  {
    hide GenJump;
    var code := GenBreak(at, Pending);
    assert code[3..] == [];
    WalkStep(code, upvalues, at, end);
    assert GenJump(CODE_JUMP, end - (at + 3)) + [] == GenJump(CODE_JUMP, end - (at + 3));
  }

  // The code emitted for the body of an unfinished loop, patched when the loop
  // ends at [end], is the code of a body whose breaks go to [end].
  lemma {:induction false} PatchStmt(
      t: Tables, names: seq<string>, at: nat, loop: LoopInfo, s: Stmt, upvalues: seq<nat>, end: nat)
    requires loop.exit.Pending?
    ensures PatchesTo(GenStmt(t, names, at, loop, s), upvalues, at, end,
            GenStmt(t, names, at, loop.(exit := To(end)), s))
    decreases s
  {
    hide *;
    var done := loop.(exit := To(end));
    match s
    case Seq(first, rest) => PatchSeq(t, names, at, loop, first, rest, upvalues, end);
    case Block(body) =>
      BlockForm(t, names, at, loop, body);
      BlockForm(t, names, at, done, body);
      PatchStmt(t, names, at, loop, body, upvalues, end);
      PlainPops(|Declared(names, body)| - |names|, upvalues);
      var pops := Pops(|Declared(names, body)| - |names|);
      PlainPatches(pops, upvalues, at + |GenStmt(t, names, at, loop, body)|, end);
      PatchConcat(GenStmt(t, names, at, loop, body), pops, upvalues, at, end, GenStmt(t, names, at, done, body), pops);
    case IfThen(c, yes) => PatchIfThen(t, names, at, loop, c, yes, upvalues, end);
    case IfElse(c, yes, no) => PatchIfElse(t, names, at, loop, c, yes, no, upvalues, end);
    case BreakLoop =>
      SimpleForms(t, names, at, loop, s);
      SimpleForms(t, names, at, done, s);
      var pops := Pops(|names| - loop.locals);
      PlainPops(|names| - loop.locals, upvalues);
      PlainPatches(pops, upvalues, at, end);
      PatchPlaceholder(upvalues, at + |pops|, end);
      PatchConcat(pops, GenBreak(at + |pops|, Pending), upvalues, at, end, pops, GenBreak(at + |pops|, To(end)));
    case _ => PatchUnchanged(t, names, at, loop, s, upvalues, end);
  }

  // The other statements do not depend on where the loop around them ends.
  lemma {:induction false} PatchUnchanged(
      t: Tables, names: seq<string>, at: nat, loop: LoopInfo, s: Stmt, upvalues: seq<nat>, end: nat)
    requires loop.exit.Pending? && !s.Seq? && !s.Block? && !s.IfThen? && !s.IfElse? && !s.BreakLoop?
    ensures PatchesTo(GenStmt(t, names, at, loop, s), upvalues, at, end,
            GenStmt(t, names, at, loop.(exit := To(end)), s))
  {
    hide *;
    var done := loop.(exit := To(end));
    PlainStmt(t, names, at, done, s, upvalues);
    SimpleForms(t, names, at, loop, s);
    SimpleForms(t, names, at, done, s);
    if s.ForIn? {
      ForInForm(t, names, at, loop, s.name, s.sequence, s.body);
      ForInForm(t, names, at, done, s.name, s.sequence, s.body);
    }
    PlainPatches(GenStmt(t, names, at, done, s), upvalues, at, end);
  }

  lemma {:induction false} PatchSeq(
      t: Tables, names: seq<string>, at: nat, loop: LoopInfo, first: Stmt, rest: Stmt, upvalues: seq<nat>, end: nat)
    requires loop.exit.Pending?
    ensures PatchesTo(GenStmt(t, names, at, loop, Seq(first, rest)), upvalues, at, end,
                      GenStmt(t, names, at, loop.(exit := To(end)), Seq(first, rest)))
    decreases Seq(first, rest), 0
  {
    hide *;
    var done := loop.(exit := To(end));
    SeqForm(t, names, at, loop, first, rest);
    SeqForm(t, names, at, done, first, rest);
    StmtSize(t, names, at, loop, first);
    StmtSize(t, names, at, done, first);
    var f := GenStmt(t, names, at, loop, first);
    var names' := Declared(names, first);
    PatchStmt(t, names, at, loop, first, upvalues, end);
    PatchStmt(t, names', at + |f|, loop, rest, upvalues, end);
    PatchConcat(f, GenStmt(t, names', at + |f|, loop, rest), upvalues, at, end,
                GenStmt(t, names, at, done, first), GenStmt(t, names', at + |f|, done, rest));
  }

  lemma {:induction false} PatchIfThen(
      t: Tables, names: seq<string>, at: nat, loop: LoopInfo, c: Expr, yes: Stmt, upvalues: seq<nat>, end: nat)
    requires loop.exit.Pending?
    ensures PatchesTo(GenStmt(t, names, at, loop, IfThen(c, yes)), upvalues, at, end,
                      GenStmt(t, names, at, loop.(exit := To(end)), IfThen(c, yes)))
    decreases IfThen(c, yes), 0
  {
    hide *;
    var done := loop.(exit := To(end));
    var at1 := at + SizeExpr(names, c) + 3;
    IfThenForm(t, names, at, loop, c, yes);
    IfThenForm(t, names, at, done, c, yes);
    StmtSize(t, names, at1, loop, yes);
    StmtSize(t, names, at1, done, yes);
    var y, y' := GenStmt(t, names, at1, loop, yes), GenStmt(t, names, at1, done, yes);
    PatchStmt(t, names, at1, loop, yes, upvalues, end);
    PlainExpr(t, names, c, upvalues);
    PlainTest(GenExpr(t, names, c), |y|, [], upvalues) by { PlainNothing(upvalues); }
    var head := GenExpr(t, names, c) + GenJump(CODE_JUMP_IF, |y|);
    PlainPatches(head, upvalues, at, end);
    PatchConcat(head, y, upvalues, at, end, head, y');
  }

  lemma {:induction false} PatchIfElse(
      t: Tables, names: seq<string>, at: nat, loop: LoopInfo, c: Expr, yes: Stmt, no: Stmt, upvalues: seq<nat>,
      end: nat)
    requires loop.exit.Pending?
    ensures PatchesTo(GenStmt(t, names, at, loop, IfElse(c, yes, no)), upvalues, at, end,
                      GenStmt(t, names, at, loop.(exit := To(end)), IfElse(c, yes, no)))
    decreases IfElse(c, yes, no), 0
  {
    hide *;
    var done := loop.(exit := To(end));
    var at1 := at + SizeExpr(names, c) + 3;
    IfElseForm(t, names, at, loop, c, yes, no);
    IfElseForm(t, names, at, done, c, yes, no);
    StmtSize(t, names, at1, loop, yes);
    StmtSize(t, names, at1, done, yes);
    var y, y' := GenStmt(t, names, at1, loop, yes), GenStmt(t, names, at1, done, yes);
    StmtSize(t, names, at1 + |y| + 3, loop, no);
    StmtSize(t, names, at1 + |y| + 3, done, no);
    var n, n' := GenStmt(t, names, at1 + |y| + 3, loop, no), GenStmt(t, names, at1 + |y| + 3, done, no);
    PatchStmt(t, names, at1, loop, yes, upvalues, end);
    PatchStmt(t, names, at1 + |y| + 3, loop, no, upvalues, end);
    PlainExpr(t, names, c, upvalues);
    PlainPatches(GenExpr(t, names, c), upvalues, at, end);
    PatchBranches(y, n, upvalues, at1 - 3, end, y', n');
    PatchConcat(GenExpr(t, names, c), GenBranches(y, n), upvalues, at, end, GenExpr(t, names, c), GenBranches(y', n'));
  }

  lemma PatchBranches(
      yes: seq<byte>, no: seq<byte>, upvalues: seq<nat>, at: nat, end: nat, yes': seq<byte>, no': seq<byte>)
    requires PatchesTo(yes, upvalues, at + 3, end, yes') && PatchesTo(no, upvalues, at + 3 + |yes| + 3, end, no')
    requires |yes'| == |yes| && |no'| == |no|
    ensures PatchesTo(GenBranches(yes, no), upvalues, at, end, GenBranches(yes', no'))
  {
    hide PatchesTo, GenJump, Plain;
    var test, over := GenJump(CODE_JUMP_IF, |yes| + 3), GenJump(CODE_JUMP, |no|);
    PlainJump(CODE_JUMP_IF, |yes| + 3, upvalues);
    PlainJump(CODE_JUMP, |no|, upvalues);
    PlainPatches(test, upvalues, at, end);
    PlainPatches(over, upvalues, at + 3 + |yes|, end);
    PatchConcat(test, yes, upvalues, at, end, test, yes');
    PatchConcat(test + yes, over, upvalues, at, end, test + yes', over);
    PatchConcat(test + yes + over, no, upvalues, at, end, test + yes' + over, no');
  }
}
