/** Binding a method to its class in place: the method's code and constants, and those
    of the functions nested in it, are changed where they are. */
module ClassBinding {
  import opened Bytes
  import opened Bytecode
  import opened Binding

  // A constant, whose function is an object.
  datatype Constant = Number(id: nat) | Undefined | Superclass(cls: nat) | Nested(fn: ObjFn)

  class ObjFn {
    const code: array<byte>
    const constants: array<Constant>
    const numUpvalues: nat
    // The arrays of this function and of those nested in it, and how deep they nest.
    ghost const repr: set<object>
    ghost const depth: nat

    constructor (
        code: array<byte>, constants: array<Constant>, numUpvalues: nat, ghost repr: set<object>, ghost depth: nat)
      ensures this.code == code && this.constants == constants && this.numUpvalues == numUpvalues && this.repr == repr
              && this.depth == depth
    {
      this.code, this.constants, this.numUpvalues, this.repr, this.depth := code, constants, numUpvalues, repr, depth;
    }

    // Functions nest like a tree.
    ghost predicate Valid()
      reads repr
      decreases depth
    {
      && code in repr && constants in repr
      && (forall i :: 0 <= i < constants.Length && constants[i].Nested? ==>
            var g := constants[i].fn;
                g.depth < depth && g.repr <= repr && code !in g.repr && constants !in g.repr && g.Valid())
      && (forall i, j :: 0 <= i < j < constants.Length && constants[i].Nested? && constants[j].Nested? ==>
             constants[i].fn.repr !! constants[j].fn.repr)
    }

    ghost function Contents(): Func
      requires Valid()
      reads repr
      decreases depth, constants.Length + 2
    {
      Func(code[..], Consts(constants.Length), numUpvalues)
    }

    ghost function Consts(n: nat): (r: seq<Const>)
      requires Valid() && n <= constants.Length
      reads repr
      ensures |r| == n && forall i :: 0 <= i < n ==> r[i] == ConstAt(i)
      decreases depth, n + 1
    {
      if n == 0 then [] else Consts(n - 1) + [ConstAt(n - 1)]
    }

    ghost function ConstAt(i: nat): Const
      requires Valid() && i < constants.Length
      reads repr
      decreases depth, 0
    {
      match constants[i]
      case Number(id) => Value(id)
      case Undefined => NullConst
      case Superclass(cls) => ClassConst(cls)
      case Nested(g) => FnConst(g.Contents())
    }

    method SetByte(i: nat, b: byte)
      requires Valid() && i < code.Length
      modifies code
      ensures Valid() && Contents() == old(Contents()).(code := old(Contents()).code[i := b])
      ensures forall j :: 0 <= j < code.Length && j != i ==> code[j] == old(code[j])
    {
      ghost var before := Contents();
      code[i] := b;
      assert Contents().constants == before.constants;
    }

    method SetSuperclass(i: nat, cls: nat)
      requires Valid() && i < constants.Length && !constants[i].Nested?
      modifies constants
      ensures Valid() && Contents() == old(Contents()).(constants := old(Contents()).constants[i := ClassConst(cls)])
    {
      ghost var before := Contents();
      constants[i] := Superclass(cls);
      assert Contents().constants == before.constants[i := ClassConst(cls)];
    }

    // The number of operand bytes of the instruction at [ip].
    function ByteCountForArguments(ip: nat): (r: nat)
      requires ip < code.Length
               && (code[ip] == CODE_CLOSURE ==>
                      ip + 3 <= code.Length && constants.Length > Short(ip + 1) && constants[Short(ip + 1)].Nested?)
      reads code, constants
    {
      if code[ip] == CODE_CLOSURE then 2 + 2 * constants[Short(ip + 1)].fn.numUpvalues else FixedOperands(code[ip])
    }

    function Short(at: nat): nat
      requires at + 2 <= code.Length
      reads code
    {
      code[at] as int * 256 + code[at + 1]
    }

    // Binds this function and those nested in it to a class whose superclass is [sup],
    // with [k] fields.
    method BindMethodCode(ghost own: nat, k: nat, sup: nat)
      requires Valid() && WellFormed(Contents(), own)
      modifies repr
      ensures Valid() && Contents() == Bind(old(Contents()), own, k, sup)
      decreases depth, 2
    {
      hide *;
      ghost var f := Contents();
      ghost var closures: seq<nat>, supers: seq<nat> := [], [];
      var ip := 0;
      Started(f, own, k, sup);
      Sizes();
      while code[ip] != CODE_END
        invariant Valid() && ip < code.Length && Contents() == Bound(f, own, k, sup, ip, closures, supers)
        invariant Reached(f, own, ip, closures, supers)
        decreases code.Length - ip
      {
        ip, closures, supers := BindInstructionAt(f, own, k, sup, ip, closures, supers);
      }
      Within(f, own, ip, closures, supers);
      AtCode(f, own, k, sup, ip, closures, supers);
      Finished(f, own, k, sup, ip, closures, supers);
    }

    lemma Sizes()
      requires Valid()
      ensures |Contents().code| == code.Length && |Contents().constants| == constants.Length && code in repr
              && constants in repr
    {
    }

    // From [ip] on, the code is as it was.
    lemma AtCode(f: Func, own: nat, k: nat, sup: nat, ip: nat, closures: seq<nat>, supers: seq<nat>)
      requires Valid() && WellFormed(f, own) && ip < |f.code|
               && Contents() == Bound(f, own, k, sup, ip, closures, supers)
      ensures |f.code| == code.Length && forall j :: ip <= j < |f.code| ==> code[j] == f.code[j]
    {
      hide BindCode, Closures, Supers, IsBody, BoundConsts;
      var b := BindCode(f.code, Upvalues(f.constants), own, k);
      assert Contents().code == b[..ip] + f.code[ip..];
      forall j | ip <= j < |f.code| ensures code[j] == f.code[j] {
        assert code[j] == code[..][j] == f.code[ip..][j - ip];
      }
    }

    lemma ShortAt(f: Func, ip: nat, at: nat)
      requires |f.code| == code.Length && (forall j :: ip <= j < |f.code| ==> code[j] == f.code[j]) && ip <= at
               && at + 2 <= |f.code|
      ensures Short(at) == ReadShort(f.code, at)
    {
    }

    lemma Kind(c: nat)
      requires Valid() && c < constants.Length
      ensures Contents().constants[c] == ConstAt(c) && (constants[c].Nested? <==> ConstAt(c).FnConst?)
      ensures constants[c].Nested? ==>
                var g := constants[c].fn;
                    g.Valid() && ConstAt(c).fn == g.Contents() && g.numUpvalues == ConstAt(c).fn.numUpvalues
                        && constants !in g.repr && code !in g.repr && g.repr <= repr
    {
    }

    // Binds the instruction at [ip], and finds the next one.
    method BindInstructionAt(
        ghost f: Func, ghost own: nat, k: nat, sup: nat, ip: nat, ghost closures: seq<nat>, ghost supers: seq<nat>)
      returns (next: nat, ghost closures': seq<nat>, ghost supers': seq<nat>)
      requires Valid() && WellFormed(f, own) && Reached(f, own, ip, closures, supers)
      requires Contents() == Bound(f, own, k, sup, ip, closures, supers) && ip < code.Length && code[ip] != CODE_END
      modifies repr
      ensures Valid() && ip < next < code.Length && Reached(f, own, next, closures', supers')
      ensures Contents() == Bound(f, own, k, sup, next, closures', supers')
      decreases depth, 1
    {
      hide *;
      hide ReadShort;
      Sizes();
      Within(f, own, ip, closures, supers);
      AtCode(f, own, k, sup, ip, closures, supers);
      ghost var after;
      after, closures', supers' := Pass(f, own, ip, closures, supers);
      if IsField(code[ip]) {
        FieldBound(f, own, k, sup, ip, after, closures, supers, closures', supers');
        SetByte(ip + 1, (code[ip + 1] + k) % 256);
      } else if IsSuper(code[ip]) {
        SuperBound(f, own, k, sup, ip, after, closures, supers, closures', supers');
        ShortAt(f, ip, ip + 3);
        Kind(Short(ip + 3));
        SetSuperclass(Short(ip + 3), sup);
      } else if code[ip] == CODE_CLOSURE {
        ClosureBound(f, own, k, sup, ip, after, closures, supers, closures', supers');
        ShortAt(f, ip, ip + 1);
        Kind(Short(ip + 1));
        BindNested(Short(ip + 1), own, k, sup);
      } else {
        OtherBound(f, own, k, sup, ip, after, closures, supers, closures', supers');
      }
      Count(ip);
      next := ip + 1 + ByteCountForArguments(ip);
    }

    lemma Count(ip: nat)
      requires ip < code.Length
               && (code[ip] == CODE_CLOSURE ==>
                      ip + 3 <= code.Length && constants.Length > Short(ip + 1) && constants[Short(ip + 1)].Nested?)
      ensures ByteCountForArguments(ip) == if code[ip] == CODE_CLOSURE
              then 2 + 2 * constants[Short(ip + 1)].fn.numUpvalues else FixedOperands(code[ip])
    {
    }

    // Binds the function in constant [i].
    method BindNested(i: nat, ghost own: nat, k: nat, sup: nat)
      requires Valid() && i < constants.Length && constants[i].Nested? && WellFormed(ConstAt(i).fn, own)
      modifies constants[i].fn.repr
      ensures Valid()
              && Contents()
                 == old(Contents()).(constants := old(Contents()).constants[i := FnConst(Bind(old(ConstAt(i)).fn, own,
                    k, sup))])
      decreases depth, 0
    {
      hide WellFormed, Bind;
      ghost var before := Contents();
      constants[i].fn.BindMethodCode(own, k, sup);
      assert Contents().constants == before.constants[i := FnConst(constants[i].fn.Contents())];
    }
  }

  // The walk is at the instruction at [ip], and has passed these constants.
  ghost predicate ReachedIn(code: seq<byte>, u: seq<nat>, own: nat, ip: nat, closures: seq<nat>, supers: seq<nat>)
    requires IsBody(code, u, own)
  {
    && IsStart(code, u, ip) && ip < |code| && IsBody(code[ip..], u, own)
    && Closures(code, u, own) == closures + Closures(code[ip..], u, own)
    && Supers(code, u, own) == supers + Supers(code[ip..], u, own)
  }

  ghost predicate Reached(f: Func, own: nat, ip: nat, closures: seq<nat>, supers: seq<nat>)
    requires WellFormed(f, own)
  {
    ip < |f.code| && ReachedIn(f.code, Upvalues(f.constants), own, ip, closures, supers)
  }

  // The function when the instructions before [ip], which name these constants, are
  // bound.
  ghost function Bound(f: Func, own: nat, k: nat, sup: nat, ip: nat, closures: seq<nat>, supers: seq<nat>): Func
    requires WellFormed(f, own) && ip <= |f.code|
  {
    Func(BindCode(f.code, Upvalues(f.constants), own, k)[..ip] + f.code[ip..],
        BoundConsts(f, own, k, sup, closures + supers), f.numUpvalues)
  }

  ghost function BoundConsts(f: Func, own: nat, k: nat, sup: nat, named: seq<nat>): (r: seq<Const>)
    requires WellFormed(f, own)
    ensures |r| == |f.constants|
  {
    seq(|f.constants|,
        i requires 0 <= i < |f.constants| => if i in named then BindConst(f, own, k, sup, i) else f.constants[i])
  }

  lemma Started(f: Func, own: nat, k: nat, sup: nat)
    requires WellFormed(f, own)
    ensures f.code != [] && Reached(f, own, 0, [], []) && Bound(f, own, k, sup, 0, [], []) == f
  {
    hide IsBody, JumpsOk, Closures, Supers;
    assert IsBody(f.code, Upvalues(f.constants), own);
    BodyStep(f.code, Upvalues(f.constants), own, k);
    assert f.code[0..] == f.code;
    assert BindCode(f.code, Upvalues(f.constants), own, k)[..0] + f.code[0..] == f.code;
    assert BoundConsts(f, own, k, sup, []) == f.constants;
  }

  lemma Finished(f: Func, own: nat, k: nat, sup: nat, ip: nat, closures: seq<nat>, supers: seq<nat>)
    requires WellFormed(f, own) && Reached(f, own, ip, closures, supers) && f.code[ip] == CODE_END
    ensures Bound(f, own, k, sup, ip, closures, supers) == Bind(f, own, k, sup)
  {
    var u := Upvalues(f.constants);
    BindSuffix(f.code, u, own, k, ip);
    var b := BindCode(f.code, u, own, k);
    AtEnd(f.code[ip..], u, own, k);
    hide IsBody, JumpsOk, Closures, Supers, BindCode;
    assert b == b[..ip] + b[ip..];
    var x, y := BoundConsts(f, own, k, sup, closures + supers), Bind(f, own, k, sup).constants;
    forall i | 0 <= i < |f.constants| ensures x[i] == y[i] {
      assert y[i] == BindConst(f, own, k, sup, i);
    }
  }

  lemma AtEnd(code: seq<byte>, upvalues: seq<nat>, own: nat, k: nat)
    requires IsBody(code, upvalues, own) && code[0] == CODE_END
    ensures Closures(code, upvalues, own) == [] && Supers(code, upvalues, own) == []
            && BindCode(code, upvalues, own, k) == code
  {
  }

  lemma Within(f: Func, own: nat, ip: nat, closures: seq<nat>, supers: seq<nat>)
    requires WellFormed(f, own) && Reached(f, own, ip, closures, supers)
    ensures ip < |f.code|
  {
  }

  // The walk passes the instruction at [ip], which names these constants.
  ghost predicate PassesIn(
      code: seq<byte>, u: seq<nat>, own: nat, ip: nat, next: nat, closures: seq<nat>, supers: seq<nat>,
      closures': seq<nat>, supers': seq<nat>)
    requires IsBody(code, u, own)
  {
    && ip < next < |code| && next == ip + InstructionLength(code[ip..], u)
    && closures' == closures + (if code[ip] == CODE_CLOSURE && ip + 3 <= next then [ReadShort(code, ip + 1)] else [])
    && supers' == supers + (if IsSuper(code[ip]) && ip + 5 <= next then [ReadShort(code, ip + 3)] else [])
  }

  ghost predicate Passes(
      f: Func, own: nat, ip: nat, next: nat, closures: seq<nat>, supers: seq<nat>, closures': seq<nat>,
      supers': seq<nat>)
    requires WellFormed(f, own) && Reached(f, own, ip, closures, supers)
  {
    PassesIn(f.code, Upvalues(f.constants), own, ip, next, closures, supers, closures', supers')
  }

  lemma PassIn(code: seq<byte>, u: seq<nat>, own: nat, ip: nat, closures: seq<nat>, supers: seq<nat>)
    returns (next: nat, closures': seq<nat>, supers': seq<nat>)
    requires IsBody(code, u, own) && ReachedIn(code, u, own, ip, closures, supers) && code[ip] != CODE_END
    ensures PassesIn(code, u, own, ip, next, closures, supers, closures', supers')
            && ReachedIn(code, u, own, next, closures', supers')
  {
    hide Closures, Supers, IsBody, IsStart, FixedOperands, InstructionLength, IsSuper, ReadShort;
    var rest := code[ip..];
    BindSuffix(code, u, own, 0, ip);
    NamedStep(rest, u, own);
    next := ip + InstructionLength(rest, u);
    NamedAt(code, u, ip);
    closures' := closures + (if code[ip] == CODE_CLOSURE then [ReadShort(code, ip + 1)] else []);
    supers' := supers + (if IsSuper(code[ip]) then [ReadShort(code, ip + 3)] else []);
    assert rest[next - ip..] == code[next..];
  }

  lemma NamedAt(code: seq<byte>, u: seq<nat>, ip: nat)
    requires ip < |code| && ip + InstructionLength(code[ip..], u) <= |code|
    ensures code[ip] == CODE_CLOSURE ==>
              3 <= InstructionLength(code[ip..], u) && ReadShort(code[ip..], 1) == ReadShort(code, ip + 1)
    ensures IsSuper(code[ip]) ==>
              5 == InstructionLength(code[ip..], u) && ReadShort(code[ip..], 3) == ReadShort(code, ip + 3)
  {
  }

  lemma Pass(f: Func, own: nat, ip: nat, closures: seq<nat>, supers: seq<nat>)
    returns (next: nat, closures': seq<nat>, supers': seq<nat>)
    requires WellFormed(f, own) && Reached(f, own, ip, closures, supers) && f.code[ip] != CODE_END
    ensures Passes(f, own, ip, next, closures, supers, closures', supers') && Reached(f, own, next, closures', supers')
  {
    next, closures', supers' := PassIn(f.code, Upvalues(f.constants), own, ip, closures, supers);
  }

  // The code of the instruction at [ip], when bound.
  lemma PassCode(
      code: seq<byte>, u: seq<nat>, own: nat, k: nat, ip: nat, next: nat, closures: seq<nat>, supers: seq<nat>,
      closures': seq<nat>, supers': seq<nat>)
    requires IsBody(code, u, own) && ReachedIn(code, u, own, ip, closures, supers)
             && PassesIn(code, u, own, ip, next, closures, supers, closures', supers')
    ensures var b := BindCode(code, u, own, k);
            && (IsField(code[ip]) ==> next == ip + 2 && b[..next] == b[..ip] + [code[ip], (code[ip + 1] + k) % 256])
            && (!IsField(code[ip]) ==> b[..next] + code[next..] == b[..ip] + code[ip..])
  {
    hide Closures, Supers, IsBody, IsStart, FixedOperands, InstructionLength, IsSuper, IsField, BindCode, ReadShort;
    var rest, b := code[ip..], BindCode(code, u, own, k);
    BindSuffix(code, u, own, k, ip);
    BindInstruction(rest, u, own, k);
    var c := b[ip..];
    assert b[..next] == b[..ip] + c[..next - ip];
    assert code[ip..next] == rest[..next - ip];
    assert code[ip..] == code[ip..next] + code[next..];
  }

  lemma FieldBound(
      f: Func, own: nat, k: nat, sup: nat, ip: nat, next: nat, closures: seq<nat>, supers: seq<nat>,
      closures': seq<nat>, supers': seq<nat>)
    requires WellFormed(f, own) && Reached(f, own, ip, closures, supers)
             && Passes(f, own, ip, next, closures, supers, closures', supers')
    requires IsField(f.code[ip])
    ensures next == ip + 2 < |f.code| && FixedOperands(f.code[ip]) == 1 && f.code[ip] != CODE_CLOSURE
    ensures var b := Bound(f, own, k, sup, ip, closures, supers);
            Bound(f, own, k, sup, next, closures', supers') == b.(code := b.code[ip + 1 := (f.code[ip + 1] + k) % 256])
  {
    PassCode(f.code, Upvalues(f.constants), own, k, ip, next, closures, supers, closures', supers');
    hide WellFormed, ReachedIn, BindCode, BoundConsts, InstructionLength, Upvalues, ReadShort;
    var c := BindCode(f.code, Upvalues(f.constants), own, k);
    ShiftAt(f.code, c, ip, (f.code[ip + 1] + k) % 256);
  }

  lemma ShiftAt(code: seq<byte>, bound: seq<byte>, ip: nat, x: byte)
    requires |bound| == |code| && ip + 2 < |code| && bound[..ip + 2] == bound[..ip] + [code[ip], x]
    ensures bound[..ip + 2] + code[ip + 2..] == (bound[..ip] + code[ip..])[ip + 1 := x]
  {
  }

  lemma SameCode(
      f: Func, own: nat, k: nat, ip: nat, next: nat, closures: seq<nat>, supers: seq<nat>, closures': seq<nat>,
      supers': seq<nat>)
    requires WellFormed(f, own) && Reached(f, own, ip, closures, supers)
             && Passes(f, own, ip, next, closures, supers, closures', supers')
    requires !IsField(f.code[ip])
    ensures var b := BindCode(f.code, Upvalues(f.constants), own, k);
            ip < next < |f.code| && b[..next] + f.code[next..] == b[..ip] + f.code[ip..]
  {
    PassCode(f.code, Upvalues(f.constants), own, k, ip, next, closures, supers, closures', supers');
  }

  // One more constant is bound.
  lemma ConstsAdd(f: Func, own: nat, k: nat, sup: nat, named: seq<nat>, named': seq<nat>, c: nat)
    requires WellFormed(f, own) && c < |f.constants| && forall i :: i in named' <==> i in named || i == c
    ensures BoundConsts(f, own, k, sup, named') == BoundConsts(f, own, k, sup, named)[c := BindConst(f, own, k, sup, c)]
  {
    hide WellFormed, BindConst;
  }

  lemma SuperBound(
      f: Func, own: nat, k: nat, sup: nat, ip: nat, next: nat, closures: seq<nat>, supers: seq<nat>,
      closures': seq<nat>, supers': seq<nat>)
    requires WellFormed(f, own) && Reached(f, own, ip, closures, supers)
             && Passes(f, own, ip, next, closures, supers, closures', supers')
    requires IsSuper(f.code[ip])
    ensures next == ip + 5 && next < |f.code| && FixedOperands(f.code[ip]) == 4 && f.code[ip] != CODE_CLOSURE
    ensures var b, c := Bound(f, own, k, sup, ip, closures, supers), ReadShort(f.code, ip + 3);
            && c < |b.constants| && !b.constants[c].FnConst?
            && Bound(f, own, k, sup, next, closures', supers') == b.(constants := b.constants[c := ClassConst(sup)])
  {
    SameCode(f, own, k, ip, next, closures, supers, closures', supers');
    SuperNamed(f, own, ip, next, closures, supers, closures', supers');
    var c := ReadShort(f.code, ip + 3);
    ConstsAdd(f, own, k, sup, closures + supers, closures' + supers', c);
    hide WellFormed, Reached, Passes, IsBody, JumpsOk, Closures, Supers, BindCode, BoundConsts;
  }

  // A super call names a hole for the superclass.
  lemma SuperNamed(
      f: Func, own: nat, ip: nat, next: nat, closures: seq<nat>, supers: seq<nat>, closures': seq<nat>,
      supers': seq<nat>)
    requires WellFormed(f, own) && Reached(f, own, ip, closures, supers)
             && Passes(f, own, ip, next, closures, supers, closures', supers')
    requires IsSuper(f.code[ip])
    ensures next == ip + 5 && next < |f.code| && FixedOperands(f.code[ip]) == 4 && f.code[ip] != CODE_CLOSURE
    ensures var c := ReadShort(f.code, ip + 3);
            && closures' == closures && supers' == supers + [c] && c < |f.constants| && !f.constants[c].FnConst?
            && c in Supers(f.code, Upvalues(f.constants), own)
  {
    var c := ReadShort(f.code, ip + 3);
    assert supers' == supers + [c] && c in Supers(f.code, Upvalues(f.constants), own);
    hide BindCode, JumpsOk, IsBody;
  }

  lemma ClosureBound(
      f: Func, own: nat, k: nat, sup: nat, ip: nat, next: nat, closures: seq<nat>, supers: seq<nat>,
      closures': seq<nat>, supers': seq<nat>)
    requires WellFormed(f, own) && Reached(f, own, ip, closures, supers)
             && Passes(f, own, ip, next, closures, supers, closures', supers')
    requires f.code[ip] == CODE_CLOSURE
    ensures ip + 3 <= |f.code|
    ensures var b, c := Bound(f, own, k, sup, ip, closures, supers), ReadShort(f.code, ip + 1);
            && c < |f.constants| == |b.constants| && f.constants[c].FnConst? && b.constants[c] == f.constants[c]
               && WellFormed(f.constants[c].fn, own)
            && next == ip + 3 + 2 * f.constants[c].fn.numUpvalues < |f.code|
            && Bound(f, own, k, sup, next, closures', supers')
               == b.(constants := b.constants[c := FnConst(Bind(f.constants[c].fn, own, k, sup))])
  {
    SameCode(f, own, k, ip, next, closures, supers, closures', supers');
    ClosureNew(f, own, ip, next, closures, supers, closures', supers');
    var c := ReadShort(f.code, ip + 1);
    ConstsAdd(f, own, k, sup, closures + supers, closures' + supers', c);
    hide WellFormed, Reached, IsBody, JumpsOk, BindCode, Closures, Supers;
  }

  // A closure instruction names a function that is not bound yet.
  lemma ClosureNew(
      f: Func, own: nat, ip: nat, next: nat, closures: seq<nat>, supers: seq<nat>, closures': seq<nat>,
      supers': seq<nat>)
    requires WellFormed(f, own) && Reached(f, own, ip, closures, supers)
             && Passes(f, own, ip, next, closures, supers, closures', supers')
    requires f.code[ip] == CODE_CLOSURE
    ensures ip + 3 <= |f.code|
    ensures var c := ReadShort(f.code, ip + 1);
            && closures' == closures + [c] && supers' == supers && c < |f.constants| && f.constants[c].FnConst?
               && WellFormed(f.constants[c].fn, own)
            && c in Closures(f.code, Upvalues(f.constants), own) && c !in Supers(f.code, Upvalues(f.constants), own)
            && c !in closures + supers && next == ip + 3 + 2 * f.constants[c].fn.numUpvalues
  {
    NamedAt(f.code, Upvalues(f.constants), ip);
    hide IsBody, JumpsOk, BindCode, Closures, Supers, ReadShort;
    var all, c := Closures(f.code, Upvalues(f.constants), own), ReadShort(f.code, ip + 1);
    assert closures' == closures + [c] && all[|closures|] == c && c in all;
    assert forall i {:trigger closures[i]} :: 0 <= i < |closures| ==> closures[i] == all[i];
    assert forall i {:trigger supers[i]} :: 0 <= i < |supers| ==>
          supers[i] == Supers(f.code, Upvalues(f.constants), own)[i];
  }

  lemma OtherBound(
      f: Func, own: nat, k: nat, sup: nat, ip: nat, next: nat, closures: seq<nat>, supers: seq<nat>,
      closures': seq<nat>, supers': seq<nat>)
    requires WellFormed(f, own) && Reached(f, own, ip, closures, supers)
             && Passes(f, own, ip, next, closures, supers, closures', supers')
    requires !IsField(f.code[ip]) && !IsSuper(f.code[ip]) && f.code[ip] != CODE_CLOSURE
    ensures next == ip + 1 + FixedOperands(f.code[ip]) < |f.code|
    ensures Bound(f, own, k, sup, next, closures', supers') == Bound(f, own, k, sup, ip, closures, supers)
  {
    SameCode(f, own, k, ip, next, closures, supers, closures', supers');
    hide WellFormed, Reached, IsBody, JumpsOk, BindCode, BoundConsts;
  }

  lemma NamedStep(code: seq<byte>, upvalues: seq<nat>, own: nat)
    requires IsBody(code, upvalues, own) && code[0] != CODE_END
    ensures var n := InstructionLength(code, upvalues);
            && n <= |code| && IsBody(code[n..], upvalues, own) && code[n..] != []
            && Closures(code, upvalues, own)
               == (if code[0] == CODE_CLOSURE then [ReadShort(code, 1)] else []) + Closures(code[n..], upvalues, own)
            && Supers(code, upvalues, own)
               == (if IsSuper(code[0]) then [ReadShort(code, 3)] else []) + Supers(code[n..], upvalues, own)
  {
  }
}
