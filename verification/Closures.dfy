/** How the compiler finds the variables that a function closes over, and records them in
    every function between their declaration and their use. */
module Closures {

  datatype Local = Local(name: string, isUpvalue: bool)

  // A variable of the enclosing function: one of its locals, or one of its upvalues.
  datatype CompilerUpvalue = CompilerUpvalue(isLocal: bool, index: nat)

  // Local [slot] of the function that is [depth] functions from the outermost.
  datatype Place = Place(depth: nat, slot: nat)

  const MAX_UPVALUES := 256

  class Compiler {
    const parent: Compiler?
    // The compiler is in the body of a class, so the functions directly in it are methods.
    const inClass: bool
    var locals: seq<Local>
    var upvalues: seq<CompilerUpvalue>
    // An upvalue has been written past the end of their array.
    var overrun: bool
    // The functions from the outermost one to this one.
    ghost const nest: seq<Compiler>
    ghost const repr: set<Compiler>

    constructor (parent: Compiler?, inClass: bool, locals: seq<Local>)
      requires parent != null ==> parent.Valid()
      ensures Valid() && this.parent == parent && this.inClass == inClass && this.locals == locals && upvalues == []
      ensures fresh(this) && nest == (if parent == null then [] else parent.nest) + [this]
      ensures repr == (if parent == null then {} else parent.repr) + {this}
    {
      this.parent, this.inClass, this.locals, upvalues, overrun := parent, inClass, locals, [], false;
      nest := (if parent == null then [] else parent.nest) + [this];
      repr := (if parent == null then {} else parent.repr) + {this};
    }

    // Each function's upvalues are distinct, and refer to its parent. There is room for
    // 256 of them.
    ghost predicate Valid()
      reads this, repr
      decreases |nest|
    {
      && nest == (if parent == null then [] else parent.nest) + [this] && this in repr
         && (forall c :: c in nest ==> c in repr)
      && (parent != null ==>
             parent in repr && repr == parent.repr + {this} && this !in parent.repr && parent != this && parent.Valid()
                 && |nest| > 1 && nest[|nest| - 2] == parent)
      && overrun == (|upvalues| > MAX_UPVALUES)
      && if parent == null then upvalues == [] else UpvaluesOk(upvalues, |parent.locals|, |parent.upvalues|)
    }

    // Follows the recorded upvalues out to a declaration.
    ghost function Follow(u: nat): (r: Place)
      requires Valid() && u < |upvalues|
      reads this, repr
      ensures r.depth < |nest| - 1 && r.slot < |nest[r.depth].locals|
      decreases |nest|
    {
      if upvalues[u].isLocal then Place(|nest| - 2, upvalues[u].index)
      else
        assert parent.Follow(upvalues[u].index).depth < |nest| - 2;
        parent.Follow(upvalues[u].index)
    }

    // [p] is what [name] means here, when it is not a local of this function: no
    // function in between declares it, and no method is in between unless it is the
    // name of a static field.
    ghost predicate Visible(name: string, p: Place)
      reads nest
    {
      && p.depth < |nest| - 1 && p.slot < |nest[p.depth].locals| && nest[p.depth].locals[p.slot].name == name
      && (forall j :: p.slot < j < |nest[p.depth].locals| ==> nest[p.depth].locals[j].name != name)
      && (forall e, j :: p.depth < e < |nest| - 1 && 0 <= j < |nest[e].locals| ==> nest[e].locals[j].name != name)
      && (forall e :: p.depth <= e < |nest| - 1 ==> !Boundary(nest[e], name))
    }

    // The last local with the name, or -1.
    method ResolveLocal(name: string) returns (r: int)
      ensures -1 <= r < |locals| && (r >= 0 ==> locals[r].name == name)
              && forall j :: r < j < |locals| ==> locals[j].name != name
    {
      var i := |locals| - 1;
      while i >= 0
        invariant -1 <= i < |locals| && forall j :: i < j < |locals| ==> locals[j].name != name
      {
        if locals[i].name == name { return i; }
        i := i - 1;
      }
      return -1;
    }

    // There is at most one more upvalue, and then it is the one found. The others lead
    // where they did.
    twostate predicate Grows(r: int)
      requires old(Valid()) && Valid()
      reads this, repr
    {
      && r < |upvalues| && |old(upvalues)| <= |upvalues| <= |old(upvalues)| + 1
         && (|upvalues| > |old(upvalues)| ==> r == |old(upvalues)|)
      && Kept()
    }

    // Each upvalue leads where it did.
    twostate predicate Kept()
      requires old(Valid()) && Valid()
      reads this, repr
    {
      |old(upvalues)| <= |upvalues| && forall u :: 0 <= u < |old(upvalues)| ==> Follow(u) == old(Follow(u))
    }

    // Finds the upvalue, or adds it, even where there is no room.
    method AddUpvalue(isLocal: bool, index: nat) returns (r: nat)
      requires Valid() && parent != null && index < if isLocal then |parent.locals| else |parent.upvalues|
      modifies `upvalues, `overrun
      ensures Valid() && r < |upvalues| && upvalues[r] == CompilerUpvalue(isLocal, index)
      ensures upvalues == old(upvalues) || upvalues == old(upvalues) + [CompilerUpvalue(isLocal, index)]
      ensures Grows(r)
    {
      var i := 0;
      while i < |upvalues|
        invariant i <= |upvalues| && forall j :: 0 <= j < i ==> upvalues[j] != CompilerUpvalue(isLocal, index)
      {
        if upvalues[i].index == index && upvalues[i].isLocal == isLocal { return i; }
        i := i + 1;
      }
      if |upvalues| >= MAX_UPVALUES { overrun := true; }
      upvalues := upvalues + [CompilerUpvalue(isLocal, index)];
      return |upvalues| - 1;
    }

    // What a search changes: upvalues are added, and locals are marked.
    twostate predicate Extended()
      reads this, repr
    {
      forall c :: c in repr ==> old(c.upvalues) <= c.upvalues && SameNames(old(c.locals), c.locals)
    }

    // Marks a local that is closed over.
    method MarkUpvalue(i: nat)
      requires Valid() && i < |locals|
      modifies `locals
      ensures Valid() && SameNames(old(locals), locals) && locals[i].isUpvalue && Kept()
    {
      locals := locals[i := locals[i].(isUpvalue := true)];
      assert parent != null ==> parent.locals == old(parent.locals) && parent.upvalues == old(parent.upvalues);
    }

    // Marks a local of the parent.
    method MarkInParent(i: nat)
      requires Valid() && parent != null && i < |parent.locals|
      modifies parent`locals
      ensures Valid() && SameNames(old(parent.locals), parent.locals) && parent.locals[i].isUpvalue && Kept()
    {
      hide SameNames;
      parent.MarkUpvalue(i);
      forall u | 0 <= u < |upvalues| ensures Follow(u) == old(Follow(u)) {
        if !upvalues[u].isLocal { assert parent.Follow(upvalues[u].index) == old(parent.Follow(upvalues[u].index)); }
      }
    }

    // Looks up [name] in the enclosing functions. Returns the upvalue that leads to it,
    // or -1.
    method FindUpvalue(name: string) returns (r: int)
      requires Valid() && name != ""
      modifies repr`upvalues, repr`overrun, repr`locals
      ensures Valid() && Extended() && locals == old(locals)
      ensures r == -1 ==> forall p :: !Visible(name, p)
      ensures r != -1 ==>
                0 <= r < |upvalues| && Visible(name, Follow(r))
                    && nest[Follow(r).depth].locals[Follow(r).slot].isUpvalue
      ensures Grows(r)
      decreases |nest|, 1
    {
      hide Visible, SameNames;
      SameNow();
      if parent == null {
        NoneOutside(name);
        return -1;
      }
      if name[0] != '_' && parent.inClass {
        NonePast(name);
        return -1;
      }
      var local := parent.ResolveLocal(name);
      if local != -1 {
        r := CloseOver(name, local);
        return;
      }
      r := FindBeyond(name);
    }

    // Looks up a name that the parent does not declare.
    method FindBeyond(name: string) returns (r: int)
      requires Valid() && name != "" && parent != null && !Boundary(parent, name)
               && forall j :: 0 <= j < |parent.locals| ==> parent.locals[j].name != name
      modifies repr`upvalues, repr`overrun, repr`locals
      ensures Valid() && Extended() && locals == old(locals)
      ensures r == -1 ==> forall p :: !Visible(name, p)
      ensures r != -1 ==>
                0 <= r < |upvalues| && Visible(name, Follow(r))
                    && nest[Follow(r).depth].locals[Follow(r).slot].isUpvalue
      ensures Grows(r)
      decreases |nest|, 0
    {
      hide Visible, SameNames;
      SameNow();
      var upvalue := parent.FindUpvalue(name);
      assert Kept() by {
        forall u | 0 <= u < |upvalues| ensures Follow(u) == old(Follow(u)) {
          if !upvalues[u].isLocal { assert parent.Follow(upvalues[u].index) == old(parent.Follow(upvalues[u].index)); }
        }
      }
      if upvalue != -1 {
        r := PassOn(name, upvalue);
        return;
      }
      VisibleUp(name);
      return -1;
    }

    // Closes over upvalue [u] of the parent.
    method PassOn(name: string, u: nat) returns (r: nat)
      requires Valid() && parent != null && !Boundary(parent, name) && u < |parent.upvalues|
               && parent.Visible(name, parent.Follow(u))
      requires forall j :: 0 <= j < |parent.locals| ==> parent.locals[j].name != name
      requires parent.nest[parent.Follow(u).depth].locals[parent.Follow(u).slot].isUpvalue
      modifies `upvalues, `overrun
      ensures Valid() && old(upvalues) <= upvalues
      ensures r < |upvalues| && Visible(name, Follow(r)) && nest[Follow(r).depth].locals[Follow(r).slot].isUpvalue
              && Grows(r)
    {
      hide Visible;
      r := AddUpvalue(false, u);
      VisibleUp(name);
      assert nest[Follow(r).depth] == parent.nest[Follow(r).depth];
    }

    lemma SameNow()
      ensures forall c :: c in repr ==> SameNames(c.locals, c.locals)
    {
    }

    lemma NoneOutside(name: string)
      requires Valid() && parent == null
      ensures forall p :: !Visible(name, p)
    {
    }

    lemma NonePast(name: string)
      requires Valid() && parent != null && Boundary(parent, name)
      ensures forall p :: !Visible(name, p)
    {
      assert nest[|nest| - 2] == parent;
    }

    lemma InParent(name: string, i: nat)
      requires Valid() && parent != null && !Boundary(parent, name) && i < |parent.locals|
               && parent.locals[i].name == name
      requires forall j :: i < j < |parent.locals| ==> parent.locals[j].name != name
      ensures Visible(name, Place(|nest| - 2, i))
    {
      assert nest[|nest| - 2] == parent;
    }

    // A name that the parent does not declare means here what it means there.
    lemma VisibleUp(name: string)
      requires Valid() && parent != null && !Boundary(parent, name)
               && forall j :: 0 <= j < |parent.locals| ==> parent.locals[j].name != name
      ensures forall p :: Visible(name, p) <==> parent.Visible(name, p)
    {
      forall p ensures Visible(name, p) <==> parent.Visible(name, p) {
        assert nest == parent.nest + [this] && nest[|nest| - 2] == parent;
        assert forall e {:trigger nest[e]} {:trigger parent.nest[e]} :: 0 <= e < |parent.nest| ==>
              nest[e] == parent.nest[e];
      }
    }

    // Closes over local [i] of the parent.
    method CloseOver(name: string, i: nat) returns (r: nat)
      requires Valid() && parent != null && !Boundary(parent, name) && i < |parent.locals|
               && parent.locals[i].name == name
      requires forall j :: i < j < |parent.locals| ==> parent.locals[j].name != name
      modifies parent`locals, `upvalues, `overrun
      ensures Valid() && Extended()
      ensures r < |upvalues| && Visible(name, Follow(r)) && nest[Follow(r).depth].locals[Follow(r).slot].isUpvalue
              && Grows(r)
    {
      MarkInParent(i);
      r := AddUpvalue(true, i);
      InParent(name, i);
    }

    // Looks up [name] in the locals of this function, and then in the enclosing ones.
    // What it finds is a local here, or an upvalue that leads to the declaration.
    method ResolveNonmodule(name: string) returns (isLocal: bool, index: int)
      requires Valid() && name != ""
      modifies repr`upvalues, repr`overrun, repr`locals
      ensures Valid() && Extended() && locals == old(locals)
      ensures isLocal <==> exists j :: 0 <= j < |locals| && locals[j].name == name
      ensures isLocal ==>
                0 <= index < |locals| && locals[index].name == name
                    && forall j :: index < j < |locals| ==> locals[j].name != name
      ensures !isLocal && index == -1 ==> forall p :: !Visible(name, p)
      ensures !isLocal && index != -1 ==> 0 <= index < |upvalues| && Visible(name, Follow(index))
    {
      hide Visible, SameNames;
      SameNow();
      index := ResolveLocal(name);
      if index != -1 { return true, index; }
      index := FindUpvalue(name);
      return false, index;
    }

    // A name means one place.
    lemma VisibleOnce(name: string, p: Place, q: Place)
      requires Visible(name, p) && Visible(name, q)
      ensures p == q
    {
      assert nest[p.depth].locals[p.slot].name == name && nest[q.depth].locals[q.slot].name == name;
    }

    // No function records a variable twice.
    lemma {:induction false} RecordedOnce(u: nat, v: nat)
      requires Valid() && u < |upvalues| && v < |upvalues| && Follow(u) == Follow(v)
      ensures u == v
      decreases |nest|
    {
      if !upvalues[u].isLocal && !upvalues[v].isLocal {
        parent.RecordedOnce(upvalues[u].index, upvalues[v].index);
      }
      assert upvalues[u] == upvalues[v];
    }

    // The functions in between pass the variable on: each has an upvalue that leads to
    // the same place, down to the one whose parent declares it.
    lemma {:induction false} PassedOn(u: nat, e: nat)
      requires Valid() && u < |upvalues| && Follow(u).depth < e < |nest|
      ensures nest[e].Valid() && exists v :: 0 <= v < |nest[e].upvalues| && nest[e].Follow(v) == Follow(u)
      decreases |nest|
    {
      if e == |nest| - 1 {
        assert nest[e].Follow(u) == Follow(u);
      } else {
        assert nest[e] == parent.nest[e];
        parent.PassedOn(upvalues[u].index, e);
      }
    }

    // A search adds an upvalue exactly when none leads to the variable yet. So the array
    // overruns when the 257th variable is closed over.
    twostate lemma AddedOnce(r: nat)
      requires old(Valid()) && Valid() && Extended() && Grows(r)
      ensures |upvalues| > |old(upvalues)| <==> forall u :: 0 <= u < |old(upvalues)| ==> old(Follow(u)) != Follow(r)
      ensures overrun == (old(overrun) || (|old(upvalues)| == MAX_UPVALUES && |upvalues| > |old(upvalues)|))
    {
      if |upvalues| > |old(upvalues)| {
        forall u | 0 <= u < |old(upvalues)| ensures old(Follow(u)) != Follow(r) {
          FollowKept(u);
          if Follow(u) == Follow(r) { RecordedOnce(u, r); }
        }
      } else {
        FollowKept(r);
      }
    }

    // What an upvalue leads to does not change when others are added.
    twostate lemma {:induction false} FollowKept(u: nat)
      requires old(Valid()) && Valid() && Extended() && u < old(|upvalues|)
      ensures u < |upvalues| && Follow(u) == old(Follow(u))
      decreases |nest|
    {
      if !upvalues[u].isLocal { parent.FollowKept(upvalues[u].index); }
    }
  }

  // Functions in a class body do not close over the variables around it.
  predicate Boundary(c: Compiler, name: string) {
    (name == "" || name[0] != '_') && c.inClass
  }

  // The upvalues are distinct, and are in range.
  predicate UpvaluesOk(us: seq<CompilerUpvalue>, locals: nat, upvalues: nat) {
    && (forall i, j :: 0 <= i < j < |us| ==> us[i] != us[j])
    && forall i :: 0 <= i < |us| ==> us[i].index < if us[i].isLocal then locals else upvalues
  }

  predicate SameNames(a: seq<Local>, b: seq<Local>) {
    |a| == |b| && forall i :: 0 <= i < |a| ==> a[i].name == b[i].name && (a[i].isUpvalue ==> b[i].isUpvalue)
  }

  // ----- A function with too many upvalues -----

  // Different names of two letters.
  function NameOf(n: nat): string
    requires n < 676
  {
    ['a' + (n % 26) as char, 'a' + (n / 26) as char]
  }

  lemma NamesDiffer(a: nat, b: nat)
    requires a < 676 && b < 676 && NameOf(a) == NameOf(b)
    ensures a == b
  {
    assert NameOf(a)[0] as int == 97 + a % 26 && NameOf(b)[0] as int == 97 + b % 26;
    assert NameOf(a)[1] as int == 97 + a / 26 && NameOf(b)[1] as int == 97 + b / 26;
  }

  function LocalsFrom(first: nat, n: nat): (r: seq<Local>)
    requires first + n <= 676
  {
    seq(n, i requires 0 <= i < n => Local(NameOf(first + i), false))
  }

  // The locals are called as they were declared.
  predicate Called(locals: seq<Local>, first: nat, n: nat)
    requires first + n <= 676
  {
    |locals| == n && forall i :: 0 <= i < n ==> locals[i].name == NameOf(first + i)
  }

  // [c] is inside [b], which has 57 locals, inside [a], which has 200, and has closed
  // over the first [n] of them.
  ghost predicate Nested(a: Compiler, b: Compiler, c: Compiler, n: nat)
    reads a, b, c, a.repr, b.repr, c.repr
    requires n <= 257
  {
    Around(a, b, c) && |c.upvalues| == n && forall u :: 0 <= u < n ==> Leads(c, u)
  }

  ghost predicate Around(a: Compiler, b: Compiler, c: Compiler)
    reads a, b, c, a.repr, b.repr, c.repr
  {
    && c.Valid() && a.Valid() && b.Valid() && a.parent == null && b.parent == a && c.parent == b && c.repr == {a, b, c}
    && !a.inClass && !b.inClass && Called(a.locals, 0, 200) && Called(b.locals, 200, 57)
  }

  // Upvalue [u] leads to variable [u].
  ghost predicate Leads(c: Compiler, u: nat)
    reads c, c.repr
    requires c.Valid() && u < |c.upvalues| && u < 257
  {
    c.nest[c.Follow(u).depth].locals[c.Follow(u).slot].name == NameOf(u)
  }

  // The place of variable [n].
  lemma PlaceOf(a: Compiler, b: Compiler, c: Compiler, n: nat)
    requires n < 257 && Around(a, b, c)
    ensures c.nest == [a, b, c] && NameOf(n) != ""
            && c.Visible(NameOf(n), if n < 200 then Place(0, n) else Place(1, n - 200))
  {
    hide NameOf;
    assert a.nest == [a] && b.nest == [a, b] && c.nest == [a, b, c];
    forall j | 0 <= j < 200 && a.locals[j].name == NameOf(n) ensures j == n { NamesDiffer(j, n); }
    forall j | 0 <= j < 57 && b.locals[j].name == NameOf(n) ensures 200 + j == n { NamesDiffer(200 + j, n); }
    assert |NameOf(n)| == 2 by { NamesDiffer(n, n); NameLength(n); }
  }

  lemma NameLength(n: nat)
    requires n < 676
    ensures |NameOf(n)| == 2
  {
  }

  // The next variable is not closed over yet, so it gets a new upvalue.
  method CloseOverNext(a: Compiler, b: Compiler, c: Compiler, n: nat)
    requires n < 257 && Nested(a, b, c, n)
    modifies c.repr`upvalues, c.repr`overrun, c.repr`locals
    ensures Nested(a, b, c, n + 1)
  {
    hide NameOf, Compiler.Visible;
    PlaceOf(a, b, c, n);
    var r := c.FindUpvalue(NameOf(n));
    PlaceOf(a, b, c, n);
    assert r != -1;
    Means(c, NameOf(n), c.Follow(r));
    forall u | 0 <= u < n ensures Leads(c, u) {
      assert old(Leads(c, u)) && c.Follow(u) == old(c.Follow(u)) && c.nest[c.Follow(u).depth] in c.repr;
    }
    assert r < n ==> Leads(c, r);
    if r < n { NamesDiffer(r, n); }
  }

  lemma Means(c: Compiler, name: string, p: Place)
    requires c.Valid() && c.Visible(name, p)
    ensures p.depth < |c.nest| && p.slot < |c.nest[p.depth].locals| && c.nest[p.depth].locals[p.slot].name == name
  {
  }

  // A function that closes over 257 variables of the functions around it writes past the
  // end of its upvalues.
  method ManyUpvalues() returns (c: Compiler)
    ensures c.Valid() && |c.upvalues| == MAX_UPVALUES + 1 && c.overrun
  {
    hide NameOf, Leads;
    var a := new Compiler(null, false, LocalsFrom(0, 200));
    var b := new Compiler(a, false, LocalsFrom(200, 57));
    c := new Compiler(b, false, []);
    for n := 0 to 257
      invariant Nested(a, b, c, n) && fresh(c.repr)
    {
      CloseOverNext(a, b, c, n);
    }
  }
}
