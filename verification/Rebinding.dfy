/** Binding a method again. The function of a method belongs to the code that defines the
    class, so each time that code runs, and whenever the code is itself in a method that
    is bound, the same function is bound once more. */
module Rebinding {
  import opened Bytes
  import opened Bytecode
  import opened Binding

  // The superclass that a binding names, and the number of its fields.
  datatype Parent = Parent(cls: nat, fields: nat)

  // The function after all bindings, in order.
  ghost function BindAll(f: Func, bindings: seq<Parent>): (r: Func)
    requires WellFormed(f, 256)
    ensures WellFormed(r, 256)
    decreases |bindings|
  {
    if bindings == [] then f
    else
      var n := |bindings| - 1;
      var g := BindAll(f, bindings[..n]);
      BoundAgain(g, bindings[n].fields, bindings[n].cls, 0, 0);
      Bind(g, 256, bindings[n].fields, bindings[n].cls)
  }

  function Shift(bindings: seq<Parent>): nat {
    if bindings == [] then 0 else Shift(bindings[..|bindings| - 1]) + bindings[|bindings| - 1].fields
  }

  // The code, or that of a function nested in it, uses a field.
  ghost predicate UsesField(f: Func)
    requires WellFormed(f, 256)
    decreases f
  {
    var u := Upvalues(f.constants);
    HasField(f.code, u, 256) || exists c :: c in Closures(f.code, u, 256) && UsesField(f.constants[c].fn)
  }

  predicate HasField(code: seq<byte>, upvalues: seq<nat>, own: nat)
    requires IsBody(code, upvalues, own)
  {
    code[0] != CODE_END && (IsField(code[0]) || HasField(code[InstructionLength(code, upvalues)..], upvalues, own))
  }

  // The code, or that of a function nested in it, calls a method of the superclass.
  ghost predicate UsesSuper(f: Func)
    requires WellFormed(f, 256)
    decreases f
  {
    var u := Upvalues(f.constants);
    Supers(f.code, u, 256) != [] || exists c :: c in Closures(f.code, u, 256) && UsesSuper(f.constants[c].fn)
  }

  // ----- The code -----

  lemma {:induction false} CodeTwice(code: seq<byte>, u: seq<nat>, k1: nat, k2: nat)
    requires IsBody(code, u, 256)
    ensures var b := BindCode(code, u, 256, k1);
            && IsBody(b, u, 256) && Closures(b, u, 256) == Closures(code, u, 256)
               && Supers(b, u, 256) == Supers(code, u, 256)
            && BindCode(b, u, 256, k2) == BindCode(code, u, 256, k1 + k2)
    decreases |code|
  {
    hide InstructionLength, IsField, IsSuper, ReadShort;
    BoundBody(code, u, 256, k1);
    if code[0] != CODE_END {
      var b, n := BindCode(code, u, 256, k1), InstructionLength(code, u);
      BindInstruction(code, u, 256, k1);
      BindInstruction(b, u, 256, k2);
      BindInstruction(code, u, 256, k1 + k2);
      CodeTwice(code[n..], u, k1, k2);
      assert b[n..] == BindCode(code[n..], u, 256, k1);
      SameOperands(code, b, u);
      var c, d := BindCode(b, u, 256, k2), BindCode(code, u, 256, k1 + k2);
      assert c[n..] == BindCode(b[n..], u, 256, k2) && d[n..] == BindCode(code[n..], u, 256, k1 + k2);
      assert c == c[..n] + c[n..] && d == d[..n] + d[n..];
      if IsField(code[0]) { ShiftTwice(code[1], k1, k2); }
    }
  }

  lemma ShiftTwice(x: nat, k1: nat, k2: nat)
    ensures ((x + k1) % 256 + k2) % 256 == (x + k1 + k2) % 256
  {
  }

  // Instructions other than field accesses name the same constants.
  lemma SameOperands(a: seq<byte>, b: seq<byte>, u: seq<nat>)
    requires a != [] && |a| == |b| && InstructionLength(a, u) <= |a| && a[0] == b[0]
    requires !IsField(a[0]) ==> a[..InstructionLength(a, u)] == b[..InstructionLength(a, u)]
    ensures a[0] == CODE_CLOSURE ==> |a| >= 3 && ReadShort(a, 1) == ReadShort(b, 1)
    ensures IsSuper(a[0]) ==> |a| >= 5 && ReadShort(a, 3) == ReadShort(b, 3)
  {
    var n := InstructionLength(a, u);
    if !IsField(a[0]) {
      assert forall i :: 0 <= i < n ==> a[i] == a[..n][i] == b[..n][i] == b[i];
    }
  }

  // Two shifts give the same code exactly when they are the same, or shift nothing.
  lemma {:induction false} CodeSame(code: seq<byte>, u: seq<nat>, k1: nat, k2: nat)
    requires IsBody(code, u, 256)
    ensures BindCode(code, u, 256, k1) == BindCode(code, u, 256, k2)
            <==> k1 % 256 == k2 % 256 || !HasField(code, u, 256)
    decreases |code|
  {
    hide InstructionLength, IsField;
    if code[0] != CODE_END {
      var n := InstructionLength(code, u);
      BindInstruction(code, u, 256, k1);
      BindInstruction(code, u, 256, k2);
      CodeSame(code[n..], u, k1, k2);
      var c, d := BindCode(code, u, 256, k1), BindCode(code, u, 256, k2);
      assert c[n..] == BindCode(code[n..], u, 256, k1) && d[n..] == BindCode(code[n..], u, 256, k2);
      assert c == c[..n] + c[n..] && d == d[..n] + d[n..];
      if IsField(code[0]) { ShiftSame(code[1], k1, k2); }
    }
  }

  lemma ShiftSame(x: nat, k1: nat, k2: nat)
    ensures (x + k1) % 256 == (x + k2) % 256 <==> k1 % 256 == k2 % 256
  {
  }

  lemma JumpsKept(code: seq<byte>, u: seq<nat>, k: nat)
    requires IsBody(code, u, 256) && JumpsOk(code, u)
    ensures JumpsOk(BindCode(code, u, 256, k), u)
  {
    hide IsStart, IsField, IsBody, BindCode;
    var b := BindCode(code, u, 256, k);
    forall i | 0 <= i && i + 3 <= |b| && IsStart(b, u, i) && IsJump(b[i])
      ensures Target(b, i) >= 0 && IsStart(b, u, Target(b, i))
    {
      BindExact(code, u, 256, k, i);
      BindSuffix(code, u, 256, k, i);
      BindInstruction(code[i..], u, 256, k);
      JumpOperand(code[i..], b[i..], u);
      var target := Target(code, i);
      if target < |code| { BindExact(code, u, 256, k, target); } else { StartInside(code, u, target); }
    }
  }

  lemma JumpOperand(a: seq<byte>, b: seq<byte>, u: seq<nat>)
    requires a != [] && b != [] && a[0] == b[0] && IsJump(b[0]) && |a| == |b| >= 3
    requires InstructionLength(a, u) <= |a| && a[..InstructionLength(a, u)] == b[..InstructionLength(a, u)]
    ensures ReadShort(a, 1) == ReadShort(b, 1)
  {
    assert forall i :: 0 <= i < 3 ==> a[i] == a[..3][i] == b[..3][i] == b[i];
  }

  lemma {:induction false} StartInside(code: seq<byte>, u: seq<nat>, i: nat)
    requires IsBody(code, u, 256) && IsStart(code, u, i)
    ensures i < |code|
    decreases |code|
  {
    BindSuffix(code, u, 256, 0, i);
  }

  // ----- Functions -----

  // Binding twice shifts by both, and leaves the second superclass.
  lemma {:induction false} BoundAgain(f: Func, k1: nat, sup1: nat, k2: nat, sup2: nat)
    requires WellFormed(f, 256)
    ensures var g := Bind(f, 256, k1, sup1); WellFormed(g, 256) && Bind(g, 256, k2, sup2) == Bind(f, 256, k1 + k2, sup2)
    decreases f
  {
    hide IsBody, JumpsOk, Closures, Supers, BindCode;
    var u, g := Upvalues(f.constants), Bind(f, 256, k1, sup1);
    CodeTwice(f.code, u, k1, k2);
    JumpsKept(f.code, u, k1);
    SameUpvalues(f, 256, k1, sup1);
    forall c | c in Closures(f.code, u, 256) ensures ConstAgain(f, k1, sup1, k2, sup2, c) {
      BoundAgain(f.constants[c].fn, k1, sup1, k2, sup2);
    }
    BoundParts(f, k1, sup1, k2, sup2);
  }

  ghost predicate ConstAgain(f: Func, k1: nat, sup1: nat, k2: nat, sup2: nat, c: nat)
    requires WellFormed(f, 256)
  {
    c in Closures(f.code, Upvalues(f.constants), 256) &&
    var h := f.constants[c].fn;
    var g := Bind(h, 256, k1, sup1);
    WellFormed(g, 256) && Bind(g, 256, k2, sup2) == Bind(h, 256, k1 + k2, sup2)
  }

  // The function itself, when it holds of the nested functions.
  lemma BoundParts(f: Func, k1: nat, sup1: nat, k2: nat, sup2: nat)
    requires WellFormed(f, 256)
    requires var u := Upvalues(f.constants);
             var b := BindCode(f.code, u, 256, k1);
             && IsBody(b, u, 256) && Closures(b, u, 256) == Closures(f.code, u, 256)
                && Supers(b, u, 256) == Supers(f.code, u, 256)
             && BindCode(b, u, 256, k2) == BindCode(f.code, u, 256, k1 + k2) && JumpsOk(b, u)
             && (forall c :: c in Closures(f.code, u, 256) ==> ConstAgain(f, k1, sup1, k2, sup2, c))
    requires Upvalues(Bind(f, 256, k1, sup1).constants) == Upvalues(f.constants)
    ensures var g := Bind(f, 256, k1, sup1); WellFormed(g, 256) && Bind(g, 256, k2, sup2) == Bind(f, 256, k1 + k2, sup2)
  {
    hide IsBody, JumpsOk, Closures, Supers, BindCode;
    var g := Bind(f, 256, k1, sup1);
    forall i | 0 <= i < |f.constants| ensures g.constants[i] == BindConst(f, 256, k1, sup1, i) {
    }
    assert WellFormed(g, 256);
    var x, y := Bind(g, 256, k2, sup2), Bind(f, 256, k1 + k2, sup2);
    forall i | 0 <= i < |f.constants| ensures x.constants[i] == y.constants[i] {
      assert x.constants[i] == BindConst(g, 256, k2, sup2, i) && y.constants[i] == BindConst(f, 256, k1 + k2, sup2, i);
    }
    assert x.constants == y.constants;
  }

  // Two bindings give the same function exactly when they shift it alike, unless it
  // uses no field, and name the same superclass, unless it calls none.
  lemma {:induction false} BoundSame(f: Func, k1: nat, sup1: nat, k2: nat, sup2: nat)
    requires WellFormed(f, 256)
    ensures Bind(f, 256, k1, sup1) == Bind(f, 256, k2, sup2)
            <==> (k1 % 256 == k2 % 256 || !UsesField(f)) && (sup1 == sup2 || !UsesSuper(f))
    decreases f
  {
    hide IsBody, JumpsOk, Closures, Supers, BindCode, HasField;
    var u := Upvalues(f.constants);
    var closures, supers := Closures(f.code, u, 256), Supers(f.code, u, 256);
    var x, y := Bind(f, 256, k1, sup1), Bind(f, 256, k2, sup2);
    CodeSame(f.code, u, k1, k2);
    forall i | 0 <= i < |f.constants|
      ensures x.constants[i] == y.constants[i] <==> SameAt(f, k1, sup1, k2, sup2, i)
    {
      assert x.constants[i] == BindConst(f, 256, k1, sup1, i) && y.constants[i] == BindConst(f, 256, k2, sup2, i);
      if i !in supers && i in closures { BoundSame(f.constants[i].fn, k1, sup1, k2, sup2); }
    }
    if x == y {
      if supers != [] { assert supers[0] in supers && SameAt(f, k1, sup1, k2, sup2, supers[0]); }
      forall c | c in closures
        ensures (k1 % 256 == k2 % 256 || !UsesField(f.constants[c].fn))
                && (sup1 == sup2 || !UsesSuper(f.constants[c].fn))
      {
        assert SameAt(f, k1, sup1, k2, sup2, c);
      }
    } else {
      assert x.code == y.code ==> x.constants != y.constants;
      if x.code == y.code {
        var i :| 0 <= i < |f.constants| && x.constants[i] != y.constants[i];
        assert !SameAt(f, k1, sup1, k2, sup2, i);
      }
    }
  }

  ghost predicate SameAt(f: Func, k1: nat, sup1: nat, k2: nat, sup2: nat, i: nat)
    requires WellFormed(f, 256) && i < |f.constants|
  {
    var u := Upvalues(f.constants);
    if i in Supers(f.code, u, 256) then sup1 == sup2
    else if i in Closures(f.code, u, 256) then
      var h := f.constants[i].fn;
      (k1 % 256 == k2 % 256 || !UsesField(h)) && (sup1 == sup2 || !UsesSuper(h))
    else true
  }

  // ----- Any number of bindings -----

  lemma {:induction false} AllAtOnce(f: Func, bindings: seq<Parent>)
    requires WellFormed(f, 256) && bindings != []
    ensures BindAll(f, bindings) == Bind(f, 256, Shift(bindings), bindings[|bindings| - 1].cls)
    decreases |bindings|
  {
    hide WellFormed, Bind;
    var n := |bindings| - 1;
    if n > 0 {
      var before, last := bindings[..n], bindings[n];
      AllAtOnce(f, before);
      BoundAgain(f, Shift(before), before[n - 1].cls, last.fields, last.cls);
    }
  }

  // After all bindings, the function is what the class of binding [i] needs exactly when
  // the other bindings shift by nothing, unless it uses no field, and the last binding
  // named the same superclass, unless it calls none.
  lemma Rebound(f: Func, bindings: seq<Parent>, i: nat)
    requires WellFormed(f, 256) && i < |bindings|
    ensures BindAll(f, bindings) == Bind(f, 256, bindings[i].fields, bindings[i].cls)
            <==> && ((Shift(bindings) - bindings[i].fields) % 256 == 0 || !UsesField(f))
                 && (bindings[|bindings| - 1].cls == bindings[i].cls || !UsesSuper(f))
  {
    hide WellFormed, Bind, UsesField, UsesSuper, BindAll;
    AllAtOnce(f, bindings);
    BoundSame(f, Shift(bindings), bindings[|bindings| - 1].cls, bindings[i].fields, bindings[i].cls);
    SameRemainder(Shift(bindings), bindings[i].fields);
  }

  lemma SameRemainder(a: int, b: int)
    ensures (a - b) % 256 == 0 <==> a % 256 == b % 256
  {
    assert a - b == 256 * (a / 256 - b / 256) + (a % 256 - b % 256);
  }

  // A method of one instruction, which returns what that leaves.
  lemma ShortBody(code: seq<byte>, u: seq<nat>)
    requires code != [] && |code| == InstructionLength(code, u) + 2 && code[0] < CODE_END && code[0] != CODE_CLOSURE
             && !IsJump(code[0])
    requires code[|code| - 2] == CODE_RETURN && code[|code| - 1] == CODE_END
    ensures IsBody(code, u, 256) && Closures(code, u, 256) == [] && JumpsOk(code, u)
    ensures Supers(code, u, 256) == if IsSuper(code[0]) then [ReadShort(code, 3)] else []
    ensures forall k: nat :: BindCode(code, u, 256, k) == if IsField(code[0]) then code[1 := (code[1] + k) % 256]
            else code
  {
    hide ReadShort;
    var n := InstructionLength(code, u);
    var rest := code[n..];
    assert rest == [CODE_RETURN, CODE_END] && rest[1..] == [CODE_END];
    ReturnBody(rest, u);
    forall i | 0 <= i && i + 3 <= |code| && IsStart(code, u, i) ensures !IsJump(code[i]) {
      assert i == 0 || i < n;
    }
    forall k: nat
      ensures BindCode(code, u, 256, k) == if IsField(code[0]) then code[1 := (code[1] + k) % 256] else code
    {
      BindInstruction(code, u, 256, k);
      var b := BindCode(code, u, 256, k);
      assert b == b[..n] + b[n..] && b[n..] == BindCode(rest, u, 256, k) && code == code[..n] + code[n..];
    }
  }

  lemma ReturnBody(code: seq<byte>, u: seq<nat>)
    requires code == [CODE_RETURN, CODE_END] && code[1..] == [CODE_END]
    ensures IsBody(code, u, 256) && Closures(code, u, 256) == [] && Supers(code, u, 256) == []
    ensures forall k: nat :: BindCode(code, u, 256, k) == code
  {
  }

  lemma ShiftOf(a: Parent, b: Parent)
    ensures Shift([a]) == a.fields && Shift([a, b]) == a.fields + b.fields
  {
    assert [a, b][..1] == [a] && [a][..0] == [];
  }

  // A getter of the first field of a class whose superclass has one field reads the
  // field after it once the class is defined a second time, as in a loop.
  lemma SecondDefinitionFails(f: Func, parent: Parent)
    requires f == Func([CODE_LOAD_FIELD_THIS, 0, CODE_RETURN, CODE_END], [], 0) && parent.fields == 1
    ensures WellFormed(f, 256)
    ensures BindAll(f, [parent]).code == [CODE_LOAD_FIELD_THIS, 1, CODE_RETURN, CODE_END]
    ensures BindAll(f, [parent, parent]).code == [CODE_LOAD_FIELD_THIS, 2, CODE_RETURN, CODE_END]
  {
    GetterBody(f);
    hide *;
    AllAtOnce(f, [parent]);
    AllAtOnce(f, [parent, parent]);
    ShiftOf(parent, parent);
    GetterBound(f, 1, parent.cls);
    GetterBound(f, 2, parent.cls);
  }

  lemma GetterBody(f: Func)
    requires f == Func([CODE_LOAD_FIELD_THIS, 0, CODE_RETURN, CODE_END], [], 0)
    ensures WellFormed(f, 256)
  {
    assert Upvalues(f.constants) == [];
    ShortBody(f.code, []);
    hide IsBody, JumpsOk, Closures, Supers;
  }

  lemma GetterBound(f: Func, k: nat, sup: nat)
    requires f == Func([CODE_LOAD_FIELD_THIS, 0, CODE_RETURN, CODE_END], [], 0) && WellFormed(f, 256) && k < 256
    ensures Bind(f, 256, k, sup).code == [CODE_LOAD_FIELD_THIS, k, CODE_RETURN, CODE_END]
  {
    assert Upvalues(f.constants) == [];
    ShortBody(f.code, []);
    hide IsBody, JumpsOk, Closures, Supers, BindCode;
  }

  // A method that calls super is bound to another superclass when the class is defined
  // again with that: from then on the first class calls the wrong one.
  lemma SecondSuperclassFails(f: Func, a: Parent, b: Parent)
    requires f == Func([CODE_SUPER_0, 0, 0, 0, 0, CODE_RETURN, CODE_END], [NullConst], 0) && a.cls != b.cls
    ensures WellFormed(f, 256) && BindAll(f, [a]).constants == [ClassConst(a.cls)]
            && BindAll(f, [a, b]).constants == [ClassConst(b.cls)]
  {
    SuperBody(f);
    hide *;
    AllAtOnce(f, [a]);
    AllAtOnce(f, [a, b]);
    ShiftOf(a, b);
    SuperBound(f, a.fields, a.cls);
    SuperBound(f, a.fields + b.fields, b.cls);
  }

  lemma SuperBody(f: Func)
    requires f == Func([CODE_SUPER_0, 0, 0, 0, 0, CODE_RETURN, CODE_END], [NullConst], 0)
    ensures WellFormed(f, 256)
  {
    assert Upvalues(f.constants) == [0];
    ShortBody(f.code, [0]);
    assert ReadShort(f.code, 3) == 0;
    hide IsBody, JumpsOk, Closures, Supers;
  }

  lemma SuperBound(f: Func, k: nat, sup: nat)
    requires f == Func([CODE_SUPER_0, 0, 0, 0, 0, CODE_RETURN, CODE_END], [NullConst], 0) && WellFormed(f, 256)
    ensures Bind(f, 256, k, sup).constants == [ClassConst(sup)]
  {
    assert Upvalues(f.constants) == [0];
    ShortBody(f.code, [0]);
    assert ReadShort(f.code, 3) == 0;
    hide IsBody, JumpsOk, Closures, Supers, BindCode;
    assert Bind(f, 256, k, sup).constants[0] == BindConst(f, 256, k, sup, 0);
  }
}
