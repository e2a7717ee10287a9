/** Binding a method to its class: the field operands are shifted past the inherited
    fields, and the superclass is stored in the constants, in the method and in the
    functions nested in it. */
module Binding {
  import opened Bytes
  import opened Bytecode
  import opened Sequences

  // A function, and its constants. Values that binding does not look at have a number.
  datatype Func = Func(code: seq<byte>, constants: seq<Const>, numUpvalues: nat)

  datatype Const = Value(id: nat) | NullConst | ClassConst(cls: nat) | FnConst(fn: Func)

  function Upvalues(cs: seq<Const>): (r: seq<nat>)
    ensures |r| == |cs| && forall i :: 0 <= i < |cs| ==> r[i] == if cs[i].FnConst? then cs[i].fn.numUpvalues else 0
  {
    seq(|cs|, i requires 0 <= i < |cs| => if cs[i].FnConst? then cs[i].fn.numUpvalues else 0)
  }

  predicate IsField(op: byte) {
    CODE_LOAD_FIELD_THIS <= op <= CODE_STORE_FIELD
  }

  predicate IsSuper(op: byte) {
    CODE_SUPER_0 <= op <= CODE_SUPER_16
  }

  predicate IsJump(op: byte) {
    CODE_JUMP <= op <= CODE_OR
  }

  // [code] is whole instructions up to its only CODE_END, whose field operands are below
  // [own].
  predicate IsBody(code: seq<byte>, upvalues: seq<nat>, own: nat) {
    code != [] &&
    if code[0] == CODE_END then |code| == 1
    else
      var n := InstructionLength(code, upvalues);
      code[0] < CODE_END && n <= |code| && (IsField(code[0]) ==> code[1] < own) && IsBody(code[n..], upvalues, own)
  }

  // An instruction starts at [i].
  predicate IsStart(code: seq<byte>, upvalues: seq<nat>, i: nat) {
    code != [] &&
    (i == 0
          || (var n := InstructionLength(code, upvalues); n <= |code| && i >= n && IsStart(code[n..], upvalues, i - n)))
  }

  // The constants that the closure instructions name, in order.
  function Closures(code: seq<byte>, upvalues: seq<nat>, own: nat): seq<nat>
    requires IsBody(code, upvalues, own)
  {
    if code[0] == CODE_END then []
    else
      var n := InstructionLength(code, upvalues);
      (if code[0] == CODE_CLOSURE then [ReadShort(code, 1)] else []) + Closures(code[n..], upvalues, own)
  }

  // The constants that the super calls name, in order.
  function Supers(code: seq<byte>, upvalues: seq<nat>, own: nat): seq<nat>
    requires IsBody(code, upvalues, own)
  {
    if code[0] == CODE_END then []
    else
      var n := InstructionLength(code, upvalues);
      (if IsSuper(code[0]) then [ReadShort(code, 3)] else []) + Supers(code[n..], upvalues, own)
  }

  // Where a jump at [i] goes.
  function Target(code: seq<byte>, i: nat): int
    requires i + 3 <= |code|
  {
    if code[i] == CODE_LOOP then i + 3 - ReadShort(code, i + 1) else i + 3 + ReadShort(code, i + 1)
  }

  ghost predicate JumpsOk(code: seq<byte>, upvalues: seq<nat>) {
    forall i :: 0 <= i && i + 3 <= |code| && IsStart(code, upvalues, i) && IsJump(code[i]) ==>
      Target(code, i) >= 0 && IsStart(code, upvalues, Target(code, i))
  }

  // A function as the compiler leaves it: each nested function has one closure
  // instruction, and super calls leave a hole for the superclass, which an earlier
  // binding may have filled.
  ghost predicate WellFormed(f: Func, own: nat)
    decreases f
  {
    var u := Upvalues(f.constants);
    && IsBody(f.code, u, own) && JumpsOk(f.code, u) && Distinct(Closures(f.code, u, own))
    && (forall c :: c in Closures(f.code, u, own) ==>
           c < |f.constants| && f.constants[c].FnConst? && WellFormed(f.constants[c].fn, own))
    && (forall c :: 0 <= c < |f.constants| && f.constants[c].FnConst? ==> c in Closures(f.code, u, own))
    && (forall c :: c in Supers(f.code, u, own) ==>
           c < |f.constants| && (f.constants[c].NullConst? || f.constants[c].ClassConst?))
  }

  // ----- What binding does -----

  // The code, with [k] added to the operands of field instructions.
  function BindCode(code: seq<byte>, upvalues: seq<nat>, own: nat, k: nat): (r: seq<byte>)
    requires IsBody(code, upvalues, own)
    ensures |r| == |code|
  {
    if code[0] == CODE_END then code
    else
      var n := InstructionLength(code, upvalues);
      (if IsField(code[0]) then [code[0], (code[1] + k) % 256] else code[..n]) + BindCode(code[n..], upvalues, own, k)
  }

  // The bound method of a class whose superclass is [sup], with [k] fields.
  ghost function Bind(f: Func, own: nat, k: nat, sup: nat): (r: Func)
    requires WellFormed(f, own)
    decreases f, 1
  {
    Func(BindCode(f.code, Upvalues(f.constants), own, k),
         seq(|f.constants|, i requires 0 <= i < |f.constants| => BindConst(f, own, k, sup, i)), f.numUpvalues)
  }

  // The hole of super calls gets the superclass, and nested functions are bound.
  ghost function BindConst(f: Func, own: nat, k: nat, sup: nat, i: nat): Const
    requires WellFormed(f, own) && i < |f.constants|
    decreases f, 0
  {
    if i in Supers(f.code, Upvalues(f.constants), own) then ClassConst(sup)
    else if i in Closures(f.code, Upvalues(f.constants), own) then FnConst(Bind(f.constants[i].fn, own, k, sup))
    else f.constants[i]
  }

  // ----- Lemmas about the code -----

  lemma BodyStep(code: seq<byte>, upvalues: seq<nat>, own: nat, k: nat)
    requires IsBody(code, upvalues, own)
    ensures code != [] && |BindCode(code, upvalues, own, k)| == |code|
    ensures code[0] != CODE_END ==>
              var n := InstructionLength(code, upvalues);
              n <= |code| && IsBody(code[n..], upvalues, own) && IsStart(code, upvalues, n)
              && BindCode(code, upvalues, own, k)[n..] == BindCode(code[n..], upvalues, own, k)
    ensures code[0] == CODE_END ==> |code| == 1
  {
    hide InstructionLength, IsField;
  }

  lemma StartStep(code: seq<byte>, upvalues: seq<nat>, i: nat)
    requires code != []
    ensures IsStart(code, upvalues, 0)
    ensures var n := InstructionLength(code, upvalues);
            0 < i ==> (IsStart(code, upvalues, i) <==> n <= |code| && n <= i && IsStart(code[n..], upvalues, i - n))
  {
    hide InstructionLength;
  }

  // From any start, the rest of the code is bound as if it stood alone.
  lemma {:induction false} BindSuffix(code: seq<byte>, upvalues: seq<nat>, own: nat, k: nat, i: nat)
    requires IsBody(code, upvalues, own) && IsStart(code, upvalues, i)
    ensures i < |code| && IsBody(code[i..], upvalues, own)
            && BindCode(code, upvalues, own, k)[i..] == BindCode(code[i..], upvalues, own, k)
    ensures code[i] != CODE_END ==> IsStart(code, upvalues, i + InstructionLength(code[i..], upvalues))
    decreases |code|
  {
    hide InstructionLength, IsBody, BindCode, IsStart;
    BodyStep(code, upvalues, own, k);
    if i == 0 {
      assert code[0..] == code && BindCode(code, upvalues, own, k)[0..] == BindCode(code, upvalues, own, k);
    } else {
      StartStep(code, upvalues, i);
      StartStep(code, upvalues, |code|);
      var n := InstructionLength(code, upvalues);
      SkipOne(code, upvalues, own, i);
      BindSuffix(code[n..], upvalues, own, k, i - n);
      var b := BindCode(code, upvalues, own, k);
      assert code[n..][i - n..] == code[i..] && b[n..][i - n..] == b[i..];
      StartStep(code, upvalues, i + InstructionLength(code[i..], upvalues));
    }
  }

  // A later start is not in the first instruction.
  lemma SkipOne(code: seq<byte>, upvalues: seq<nat>, own: nat, i: nat)
    requires IsBody(code, upvalues, own) && IsStart(code, upvalues, i) && i > 0
    ensures code[0] != CODE_END
  {
  }

  // The constants named from a start on are among those of the code.
  lemma {:induction false} NamedSuffix(code: seq<byte>, upvalues: seq<nat>, own: nat, i: nat)
    requires IsBody(code, upvalues, own) && IsStart(code, upvalues, i)
    ensures i < |code| && IsBody(code[i..], upvalues, own)
    ensures forall c :: c in Closures(code[i..], upvalues, own) ==> c in Closures(code, upvalues, own)
    ensures forall c :: c in Supers(code[i..], upvalues, own) ==> c in Supers(code, upvalues, own)
    decreases |code|
  {
    hide InstructionLength, IsField, IsSuper;
    var n := InstructionLength(code, upvalues);
    if i == 0 {
      assert code[0..] == code;
    } else {
      NamedSuffix(code[n..], upvalues, own, i - n);
      assert code[n..][i - n..] == code[i..];
    }
  }

  // One instruction: its opcode stays, and only a field instruction changes.
  lemma BindInstruction(code: seq<byte>, upvalues: seq<nat>, own: nat, k: nat)
    requires IsBody(code, upvalues, own)
    ensures var b, n := BindCode(code, upvalues, own, k), InstructionLength(code, upvalues);
            && b[0] == code[0] && n <= |code| && InstructionLength(b, upvalues) == n
            && (IsField(code[0]) ==> n == 2 && code[1] < own && b[1] == (code[1] + k) % 256)
            && (!IsField(code[0]) ==> b[..n] == code[..n])
  {
    var b, n := BindCode(code, upvalues, own, k), InstructionLength(code, upvalues);
    if code[0] != CODE_END {
      if IsField(code[0]) {
        assert n == 2;
      } else {
        assert b[..n] == code[..n];
        SameLength(code, b, upvalues);
      }
    }
  }

  lemma SameLength(a: seq<byte>, b: seq<byte>, upvalues: seq<nat>)
    requires a != [] && |a| == |b| && InstructionLength(a, upvalues) <= |a|
             && a[..InstructionLength(a, upvalues)] == b[..InstructionLength(a, upvalues)]
    ensures InstructionLength(b, upvalues) == InstructionLength(a, upvalues)
  {
    var n := InstructionLength(a, upvalues);
    assert a[0] == a[..n][0] && b[0] == b[..n][0];
    if a[0] == CODE_CLOSURE {
      assert a[1] == a[..n][1] && b[1] == b[..n][1] && a[2] == a[..n][2] && b[2] == b[..n][2];
    }
  }

  // Binding keeps the layout: it changes only the operands of field instructions.
  lemma {:induction false} BindExact(code: seq<byte>, upvalues: seq<nat>, own: nat, k: nat, i: nat)
    requires IsBody(code, upvalues, own) && i < |code|
    ensures var b := BindCode(code, upvalues, own, k);
            && (IsStart(b, upvalues, i) <==> IsStart(code, upvalues, i))
            && b[i] == if i >= 1 && IsStart(code, upvalues, i - 1) && IsField(code[i - 1]) then (code[i] + k) % 256
               else code[i]
    decreases |code|
  {
    hide InstructionLength, IsField;
    var b, n := BindCode(code, upvalues, own, k), InstructionLength(code, upvalues);
    BindInstruction(code, upvalues, own, k);
    if code[0] != CODE_END {
      assert b[n..] == BindCode(code[n..], upvalues, own, k);
      if i >= n {
        BindExact(code[n..], upvalues, own, k, i - n);
        assert b[i] == b[n..][i - n];
        if i > n { assert code[i - 1] == code[n..][i - n - 1]; }
      } else if !IsField(code[0]) {
        assert b[i] == b[..n][i];
      }
    }
  }

  // Bound code is whole instructions, and names the same constants.
  lemma {:induction false} BoundBody(code: seq<byte>, upvalues: seq<nat>, own: nat, k: nat)
    requires IsBody(code, upvalues, own)
    ensures IsBody(BindCode(code, upvalues, own, k), upvalues, 256)
    decreases |code|
  {
    hide InstructionLength, IsField;
    var b, n := BindCode(code, upvalues, own, k), InstructionLength(code, upvalues);
    BindInstruction(code, upvalues, own, k);
    if code[0] != CODE_END {
      BoundBody(code[n..], upvalues, own, k);
      assert b[n..] == BindCode(code[n..], upvalues, own, k);
    }
  }

  lemma SameUpvalues(f: Func, own: nat, k: nat, sup: nat)
    requires WellFormed(f, own)
    ensures Upvalues(Bind(f, own, k, sup).constants) == Upvalues(f.constants)
  {
    hide IsBody, JumpsOk, Closures, Supers;
    var b := Bind(f, own, k, sup);
    forall i | 0 <= i < |f.constants| ensures Upvalues(b.constants)[i] == Upvalues(f.constants)[i] {
      assert b.constants[i] == BindConst(f, own, k, sup, i);
      SameCount(f, own, k, sup, i);
    }
  }

  lemma SameCount(f: Func, own: nat, k: nat, sup: nat, i: nat)
    requires WellFormed(f, own) && i < |f.constants|
    ensures var c, b := f.constants[i], BindConst(f, own, k, sup, i);
            b.FnConst? == c.FnConst? && (c.FnConst? ==> b.fn.numUpvalues == c.fn.numUpvalues)
    ensures f.constants[i].Value? ==> BindConst(f, own, k, sup, i) == f.constants[i]
    ensures BindConst(f, own, k, sup, i).Value? ==> f.constants[i].Value?
    ensures i in Supers(f.code, Upvalues(f.constants), own) ==> BindConst(f, own, k, sup, i) == ClassConst(sup)
  {
    hide IsBody, JumpsOk, Closures, Supers;
  }

  lemma BoundConst(f: Func, own: nat, k: nat, sup: nat, c: nat)
    requires WellFormed(f, own)
    ensures var b := Bind(f, own, k, sup);
            && |b.constants| == |f.constants|
            && (c < |f.constants| ==>
                  && b.constants[c].FnConst? == f.constants[c].FnConst?
                     && (b.constants[c].Value? <==> f.constants[c].Value?)
                  && (f.constants[c].Value? ==> b.constants[c] == f.constants[c]))
            && (c in Supers(f.code, Upvalues(f.constants), own) ==>
                   c < |f.constants| && b.constants[c] == ClassConst(sup))
  {
    hide IsBody, JumpsOk, Closures, Supers;
    if c < |f.constants| {
      assert Bind(f, own, k, sup).constants[c] == BindConst(f, own, k, sup, c);
      SameCount(f, own, k, sup, c);
    }
  }
}
