/** The garbage collector: marks what the roots reach, with an explicit stack of gray
    objects, and frees the rest. */
module Collector {
  import opened Sequences

  // A value that refers to an object, or does not.
  datatype Val = Plain | Ref(obj: Obj)

  // What an object contains, as far as the collector looks at it. [methods] of a
  // class has null for methods that are not closures.
  datatype Data =
    | Class(superclass: Obj?, methods: seq<Obj?>, methodCapacity: nat, name: Obj?, attributes: Val)
    | Closure(fn: Obj?, upvalues: seq<Obj?>)
    | Fiber(frames: seq<Obj?>, frameCapacity: nat, stack: seq<Val>, stackCapacity: nat, openUpvalues: seq<Obj?>,
        caller: Obj?, error: Val)
    | Fn(constants: seq<Val>, codeCapacity: nat, constantCapacity: nat)
    | Foreign
    | Instance(fields: seq<Val>)
    | List(elements: seq<Val>, capacity: nat)
    | Map(keys: seq<Val>, values: seq<Val>, capacity: nat)
    | Module(variables: seq<Val>, variableNames: seq<Obj?>, namesCapacity: nat, moduleName: Obj?)
    | Range
    | Text(length: nat)
    | Upvalue(closed: Val)

  // An object, whose contents do not change while garbage is collected.
  class Obj {
    const classObj: Obj?
    const data: Data
    var isDark: bool
    var next: Obj?

    constructor (classObj: Obj?, data: Data, next: Obj?)
      ensures this.classObj == classObj && this.data == data && this.next == next && !isDark
    {
      this.classObj, this.data, this.next, isDark := classObj, data, next, false;
    }
  }

  // The sizes of the C structures, which depend on the platform.
  datatype Sizes = Sizes(
    objClass: nat, methodEntry: nat, objClosure: nat, pointer: nat, objFiber: nat, callFrame: nat, value: nat,
    objFn: nat, line: nat, objInstance: nat, objList: nat, objMap: nat, mapEntry: nat, objModule: nat, objRange: nat,
    objString: nat, objUpvalue: nat)

  function RefOf(v: Val): Obj? {
    match v
    case Plain => null
    case Ref(o) => o
  }

  function Refs(vs: seq<Val>): (r: seq<Obj?>)
    ensures |r| == |vs| && forall i :: 0 <= i < |vs| ==> r[i] == RefOf(vs[i])
  {
    if vs == [] then [] else [RefOf(vs[0])] + Refs(vs[1..])
  }

  // The objects that an object refers to. A foreign object refers to none, not even
  // to its class.
  function Edges(o: Obj): seq<Obj?> {
    match o.data
    case Class(superclass, methods, _, name, attributes) =>
      [o.classObj, superclass] + methods + [name, RefOf(attributes)]
    case Closure(fn, upvalues) => [fn] + upvalues
    case Fiber(frames, _, stack, _, openUpvalues, caller, error) =>
      frames + Refs(stack) + openUpvalues + [caller, RefOf(error)]
    case Fn(constants, _, _) => Refs(constants)
    case Foreign => []
    case Instance(fields) => [o.classObj] + Refs(fields)
    case List(elements, _) => Refs(elements)
    case Map(keys, values, _) => Refs(keys) + Refs(values)
    case Module(variables, variableNames, _, name) => Refs(variables) + variableNames + [name]
    case Range => []
    case Text(_) => []
    case Upvalue(closed) => [RefOf(closed)]
  }

  // The memory that an object is charged for.
  function Size(z: Sizes, o: Obj): nat {
    match o.data
    case Class(_, _, capacity, _, _) => z.objClass + capacity * z.methodEntry
    case Closure(_, upvalues) => z.objClosure + z.pointer * |upvalues|
    case Fiber(_, frameCapacity, _, stackCapacity, _, _, _) =>
      z.objFiber + frameCapacity * z.callFrame + stackCapacity * z.value
    case Fn(_, code, constants) => z.objFn + code + z.value * constants + z.line * code
    case Foreign => 0
    case Instance(fields) => z.objInstance + z.value * |fields|
    case List(_, capacity) => z.objList + z.value * capacity
    case Map(_, _, capacity) => z.objMap + z.mapEntry * capacity
    case Module(_, _, capacity, _) => capacity * z.pointer + z.objModule
    case Range => z.objRange
    case Text(length) => z.objString + length + 1
    case Upvalue(_) => z.objUpvalue
  }

  // It is by the kind of the object, its own structure and the arrays that it owns: of
  // methods, of upvalues, of call frames and stack slots, of code with a line number for
  // each byte, and so on.
  lemma SizeFields(z: Sizes, o: Obj)
    ensures o.data.Class? ==> Size(z, o) == z.objClass + o.data.methodCapacity * z.methodEntry
    ensures o.data.Closure? ==> Size(z, o) == z.objClosure + |o.data.upvalues| * z.pointer
    ensures o.data.Fiber? ==>
              Size(z, o) == z.objFiber + o.data.frameCapacity * z.callFrame + o.data.stackCapacity * z.value
    ensures o.data.Fn? ==>
              Size(z, o) == z.objFn + o.data.codeCapacity * (1 + z.line) + o.data.constantCapacity * z.value
    ensures o.data.Foreign? ==> Size(z, o) == 0
    ensures o.data.Instance? ==> Size(z, o) == z.objInstance + |o.data.fields| * z.value
    ensures o.data.List? ==> Size(z, o) == z.objList + o.data.capacity * z.value
    ensures o.data.Map? ==> Size(z, o) == z.objMap + o.data.capacity * z.mapEntry
    ensures o.data.Module? ==> Size(z, o) == z.objModule + o.data.namesCapacity * z.pointer
    ensures o.data.Range? ==> Size(z, o) == z.objRange
    ensures o.data.Text? ==> Size(z, o) == z.objString + o.data.length + 1
    ensures o.data.Upvalue? ==> Size(z, o) == z.objUpvalue
  {
  }

  function Charge(z: Sizes, s: seq<Obj>): nat {
    if s == [] then 0 else Charge(z, s[..|s| - 1]) + Size(z, s[|s| - 1])
  }

  // ----- Reachability -----

  // What the roots reach in at most [n] steps.
  function Reach(roots: set<Obj>, n: nat): set<Obj> {
    if n == 0 then roots
    else
      var r := Reach(roots, n - 1);
      r + set o, i | o in r && 0 <= i < |Edges(o)| && Edges(o)[i] != null :: Edges(o)[i]
  }

  ghost predicate Reachable(roots: set<Obj>, o: Obj) {
    exists n: nat :: o in Reach(roots, n)
  }

  lemma ReachEdge(roots: set<Obj>, o: Obj, i: nat)
    requires Reachable(roots, o) && i < |Edges(o)| && Edges(o)[i] != null
    ensures Reachable(roots, Edges(o)[i])
  {
    var n: nat :| o in Reach(roots, n);
    assert Edges(o)[i] in Reach(roots, n + 1);
  }

  // A set that contains the roots and what its members refer to has everything
  // reachable.
  lemma {:induction false} ClosedReach(roots: set<Obj>, s: set<Obj>, n: nat)
    requires roots <= s
    requires forall o, i :: o in s && 0 <= i < |Edges(o)| && Edges(o)[i] != null ==> Edges(o)[i] in s
    ensures Reach(roots, n) <= s
  {
    hide Edges;
    if n > 0 { ClosedReach(roots, s, n - 1); }
  }

  // ----- What objects mention, field by field -----

  predicate Mentions(o: Obj, p: Obj) {
    match o.data
    case Class(superclass, methods, _, name, attributes) =>
      p == o.classObj || p == superclass || p in methods || p == name || attributes == Ref(p)
    case Closure(fn, upvalues) => p == fn || p in upvalues
    case Fiber(frames, _, stack, _, openUpvalues, caller, error) =>
      p in frames || Ref(p) in stack || p in openUpvalues || p == caller || error == Ref(p)
    case Fn(constants, _, _) => Ref(p) in constants
    case Foreign => false
    case Instance(fields) => p == o.classObj || Ref(p) in fields
    case List(elements, _) => Ref(p) in elements
    case Map(keys, values, _) => Ref(p) in keys || Ref(p) in values
    case Module(variables, variableNames, _, name) => Ref(p) in variables || p in variableNames || p == name
    case Range => false
    case Text(_) => false
    case Upvalue(closed) => closed == Ref(p)
  }

  lemma RefsMention(vs: seq<Val>, p: Obj)
    ensures p in Refs(vs) <==> Ref(p) in vs
  {
    if p in Refs(vs) {
      var i :| 0 <= i < |vs| && Refs(vs)[i] == p;
      assert vs[i] == Ref(p);
    }
    if Ref(p) in vs {
      var i :| 0 <= i < |vs| && vs[i] == Ref(p);
      assert Refs(vs)[i] == p;
    }
  }

  // The edges are what the fields mention.
  lemma EdgesMention(o: Obj, p: Obj)
    ensures p in Edges(o) <==> Mentions(o, p)
  {
    hide Refs;
    match o.data
    case Fiber(_, _, stack, _, _, _, _) => RefsMention(stack, p);
    case Fn(constants, _, _) => RefsMention(constants, p);
    case Instance(fields) => RefsMention(fields, p);
    case List(elements, _) => RefsMention(elements, p);
    case Map(keys, values, _) =>
      RefsMention(keys, p);
      RefsMention(values, p);
    case Module(variables, _, _, _) => RefsMention(variables, p);
    case _ =>
  }

  // What is reached without being a root is mentioned by something else that is reached.
  lemma {:induction false} MentionedBy(roots: set<Obj>, o: Obj, n: nat)
    requires o in Reach(roots, n) && o !in roots
    ensures exists q :: q != o && Reachable(roots, q) && Mentions(q, o)
    decreases n
  {
    hide Edges, Mentions;
    if o in Reach(roots, n - 1) {
      MentionedBy(roots, o, n - 1);
    } else {
      var q, i :| q in Reach(roots, n - 1) && 0 <= i < |Edges(q)| && Edges(q)[i] != null && Edges(q)[i] == o;
      EdgesMention(q, o);
      assert Reachable(roots, q);
    }
  }

  // ----- Classes of foreign objects -----

  // The edges, with the class of a foreign object, which its finalizer reads.
  function EdgesToo(o: Obj): seq<Obj?> {
    if o.data.Foreign? then [o.classObj] else Edges(o)
  }

  function ReachToo(roots: set<Obj>, n: nat): set<Obj> {
    if n == 0 then roots
    else
      var r := ReachToo(roots, n - 1);
      r + set o, i | o in r && 0 <= i < |EdgesToo(o)| && EdgesToo(o)[i] != null :: EdgesToo(o)[i]
  }

  lemma {:induction false} ReachMore(roots: set<Obj>, n: nat)
    ensures Reach(roots, n) <= ReachToo(roots, n)
  {
    hide Edges;
    if n > 0 {
      ReachMore(roots, n - 1);
      forall o, i | o in Reach(roots, n - 1) && 0 <= i < |Edges(o)| && Edges(o)[i] != null
        ensures Edges(o)[i] in ReachToo(roots, n)
      {
        ForeignEdges(o);
        assert EdgesToo(o)[i] == Edges(o)[i];
      }
    }
  }

  lemma ForeignEdges(o: Obj)
    ensures o.data.Foreign? ==> Edges(o) == []
  {
  }

  // Every foreign object that is reached has a class that is reached some other way.
  ghost predicate ClassesReached(roots: set<Obj>) {
    forall n: nat, o :: o in Reach(roots, n) && o.data.Foreign? && o.classObj != null ==> Reachable(roots, o.classObj)
  }

  // Everything that the edges to classes lead to as well is reached anyway.
  ghost predicate NothingLost(roots: set<Obj>) {
    forall n: nat, o :: o in ReachToo(roots, n) ==> Reachable(roots, o)
  }

  // Nothing is lost for want of the edge from foreign objects to their classes exactly
  // when each of those classes is reached along the other edges.
  lemma ClassesKept(roots: set<Obj>)
    ensures ClassesReached(roots) <==> NothingLost(roots)
  {
    hide Edges;
    if ClassesReached(roots) {
      forall n: nat, o | o in ReachToo(roots, n) ensures Reachable(roots, o) {
        ReachLess(roots, n, o);
      }
    } else {
      var n: nat, o :| o in Reach(roots, n) && o.data.Foreign? && o.classObj != null && !Reachable(roots, o.classObj);
      ReachMore(roots, n);
      ClassToo(roots, o, n);
      var c: Obj := o.classObj;
      assert c in ReachToo(roots, n + 1) && !Reachable(roots, c);
    }
  }

  lemma ClassToo(roots: set<Obj>, o: Obj, n: nat)
    requires o in ReachToo(roots, n) && o.data.Foreign? && o.classObj != null
    ensures o.classObj in ReachToo(roots, n + 1)
  {
    assert EdgesToo(o)[0] == o.classObj;
  }

  lemma {:induction false} ReachLess(roots: set<Obj>, n: nat, o: Obj)
    requires ClassesReached(roots) && o in ReachToo(roots, n)
    ensures Reachable(roots, o)
    decreases n
  {
    hide Edges, Reach;
    if n == 0 {
      ReachRoot(roots, o);
    } else if o in ReachToo(roots, n - 1) {
      ReachLess(roots, n - 1, o);
    } else {
      var p, i :| p in ReachToo(roots, n - 1) && 0 <= i < |EdgesToo(p)| && EdgesToo(p)[i] != null
          && EdgesToo(p)[i] == o;
      ReachLess(roots, n - 1, p);
      var m: nat :| p in Reach(roots, m);
      if !p.data.Foreign? { ReachEdge(roots, p, i); }
    }
  }

  lemma ReachRoot(roots: set<Obj>, o: Obj)
    requires o in roots
    ensures Reachable(roots, o)
  {
    assert o in Reach(roots, 0);
  }

  // ----- The list of all objects -----

  function Succ(s: seq<Obj>, i: nat): Obj?
    requires i < |s|
  {
    if i + 1 < |s| then s[i + 1] else null
  }

  function First(s: seq<Obj>): Obj? {
    if s == [] then null else s[0]
  }

  ghost predicate Linked(s: seq<Obj>)
    reads s`next
  {
    Distinct(s) && forall i {:trigger Succ(s, i)} :: 0 <= i < |s| ==> s[i].next == Succ(s, i)
  }

  ghost function Members(s: seq<Obj>): set<Obj> {
    set o | o in s
  }

  // ----- The virtual machine -----

  class VM {
    const sizes: Sizes
    var first: Obj?
    var gray: seq<Obj>
    var bytesAllocated: nat
    var nextGC: nat
    const heapGrowthPercent: nat
    const minHeapSize: nat

    // The roots. No compilation is in progress.
    const modules: Obj?
    const tempRoots: seq<Obj?>
    const fiber: Obj?
    const handles: seq<Val>
    const methodNames: seq<Obj?>
    const methodNamesCapacity: nat

    // All objects, in the order of the list; the objects already traversed, in order;
    // and the objects freed, in order.
    ghost var objects: seq<Obj>
    ghost var done: seq<Obj>
    ghost var freed: seq<Obj>
    // The roots, once they are marked.
    ghost var kept: seq<Obj?>

    // A machine whose only roots are [handles].
    constructor (sizes: Sizes, handles: seq<Val>, first: Obj?, ghost objects: seq<Obj>)
      ensures this.sizes == sizes && this.handles == handles && this.first == first && this.objects == objects
      ensures modules == fiber == null && tempRoots == methodNames == [] && gray == [] && freed == []
    {
      this.sizes, this.handles, this.first, this.objects := sizes, handles, first, objects;
      modules, fiber, tempRoots, methodNames, methodNamesCapacity := null, null, [], [], 0;
      gray, bytesAllocated, nextGC, heapGrowthPercent, minHeapSize := [], 0, 0, 0, 0;
      done, freed, kept := [], [], [];
    }

    function RootSeq(): seq<Obj?> {
      [modules] + tempRoots + [fiber] + Refs(handles) + methodNames
    }

    // The same, field by field.
    predicate IsRoot(p: Obj) {
      p == modules || p in tempRoots || p == fiber || Ref(p) in handles || p in methodNames
    }

    lemma RootsAre(p: Obj)
      ensures p in Roots() <==> IsRoot(p)
    {
      hide Refs;
      RefsMention(handles, p);
      if p in RootSeq() {
        var i :| 0 <= i < |RootSeq()| && RootSeq()[i] == p;
        assert p in Roots();
      }
    }

    ghost function Roots(): set<Obj> {
      set i | 0 <= i < |RootSeq()| && RootSeq()[i] != null :: RootSeq()[i]
    }

    // Everything that roots and objects refer to is on the list.
    ghost predicate Complete()
      reads `objects
    {
      && (forall r :: r in Roots() ==> r in objects)
      && (forall o, i :: o in objects && 0 <= i < |Edges(o)| && Edges(o)[i] != null ==> Edges(o)[i] in objects)
    }

    // Between collections.
    ghost predicate Valid()
      reads this, objects
    {
      Complete() && Linked(objects) && first == First(objects) && gray == [] && forall o :: o in objects ==> !o.isDark
    }

    // ----- Marking -----

    // The dark objects are reachable, and are those of [w]. What the traversed ones,
    // [d], refer to is dark, and so are the roots kept.
    ghost predicate MarkingOf(w: seq<Obj>, d: seq<Obj>)
      reads `objects, `kept, objects`isDark
    {
      && AllDark(kept) && Complete() && Distinct(w)
      && (forall i :: 0 <= i < |w| ==> w[i] in objects && w[i].isDark)
      && (forall o :: o in objects && o.isDark ==> o in w && Reachable(Roots(), o))
      && (forall j :: 0 <= j < |d| ==> AllDark(Edges(d[j])))
    }

    // The dark objects are gray, or traversed, or [current].
    ghost predicate Marking(current: seq<Obj>)
      reads `objects, `gray, `done, `kept, objects`isDark
    {
      MarkingOf(done + current + gray, done)
    }

    // Everything in [os] that is not null is dark.
    ghost predicate AllDark(os: seq<Obj?>)
      reads `objects, objects`isDark
    {
      forall i {:trigger os[i]} :: 0 <= i < |os| && os[i] != null ==> os[i] in objects && os[i].isDark
    }

    // Everything in [os] that is not null may be marked.
    ghost predicate Fine(os: seq<Obj?>)
      reads `objects
    {
      forall i {:trigger os[i]} :: 0 <= i < |os| && os[i] != null ==> os[i] in objects && Reachable(Roots(), os[i])
    }

    // Marks [o]; what is in [seen] is marked already.
    method GrayObj(o: Obj?, ghost current: seq<Obj>, ghost seen: seq<Obj?>)
      requires Marking(current) && AllDark(seen) && Fine([o])
      modifies `gray, objects`isDark
      ensures Marking(current) && AllDark(seen + [o])
    {
      hide Edges, Complete, Reachable;
      if o == null || o.isDark {
        assert o != null ==> [o][0] in objects;
        return;
      }
      assert [o][0] in objects && Reachable(Roots(), [o][0]);
      ghost var w := done + current + gray;
      o.isDark := true;
      gray := gray + [o];
      assert done + current + gray == w + [o];
    }

    method GrayObjs(os: seq<Obj?>, ghost current: seq<Obj>, ghost seen: seq<Obj?>)
      requires Marking(current) && AllDark(seen) && Fine(os)
      modifies `gray, objects`isDark
      ensures Marking(current) && AllDark(seen + os)
    {
      hide Marking, Reachable, AllDark;
      assert os[..0] == [] && seen + [] == seen;
      for i := 0 to |os|
        invariant Marking(current) && AllDark(seen + os[..i])
      {
        assert seen + os[..i + 1] == seen + os[..i] + [os[i]];
        GrayObj(os[i], current, seen + os[..i]);
      }
      assert os[..|os|] == os;
    }

    method GrayValues(vs: seq<Val>, ghost current: seq<Obj>, ghost seen: seq<Obj?>)
      requires Marking(current) && AllDark(seen) && Fine(Refs(vs))
      modifies `gray, objects`isDark
      ensures Marking(current) && AllDark(seen + Refs(vs))
    {
      hide Marking, Reachable, AllDark, Refs;
      ghost var os := Refs(vs);
      assert os[..0] == [] && seen + [] == seen;
      for i := 0 to |vs|
        invariant Marking(current) && AllDark(seen + os[..i])
      {
        assert os[i] == RefOf(vs[i]) && seen + os[..i + 1] == seen + os[..i] + [os[i]];
        GrayObj(RefOf(vs[i]), current, seen + os[..i]);
      }
      assert os[..|os|] == os;
    }

    lemma FineParts(a: seq<Obj?>, b: seq<Obj?>)
      requires Fine(a + b)
      ensures Fine(a) && Fine(b)
    {
      forall i {:trigger a[i]} | 0 <= i < |a| && a[i] != null ensures a[i] in objects && Reachable(Roots(), a[i]) {
        assert (a + b)[i] == a[i];
      }
      forall i {:trigger b[i]} | 0 <= i < |b| && b[i] != null ensures b[i] in objects && Reachable(Roots(), b[i]) {
        assert (a + b)[|a| + i] == b[i];
      }
    }

    lemma FineEdges(o: Obj)
      requires Complete() && o in objects && Reachable(Roots(), o)
      ensures Fine(Edges(o))
    {
      hide Edges;
      forall i {:trigger Edges(o)[i]} | 0 <= i < |Edges(o)| && Edges(o)[i] != null
        ensures Edges(o)[i] in objects && Reachable(Roots(), Edges(o)[i])
      {
        ReachEdge(Roots(), o, i);
      }
    }

    lemma NothingDark()
      ensures AllDark([])
    {
    }

    // ----- Traversing one object -----

    method BlackenClass(o: Obj)
      requires Marking([o]) && o.data.Class? && Fine(Edges(o))
      modifies `gray, `bytesAllocated, objects`isDark
      ensures Marking([o]) && AllDark(Edges(o)) && bytesAllocated == old(bytesAllocated) + Size(sizes, o)
    {
      hide Marking, AllDark, Fine, Refs;
      NothingDark();
      var methods := o.data.methods;
      ghost var a, b: seq<Obj?> := [o.classObj, o.data.superclass], [o.data.name, RefOf(o.data.attributes)];
      FineParts(a + methods, b);
      FineParts(a, methods);
      assert [] + a == a;
      GrayObjs([o.classObj, o.data.superclass], [o], []);
      GrayObjs(methods, [o], a);
      GrayObjs([o.data.name, RefOf(o.data.attributes)], [o], a + methods);
      bytesAllocated := bytesAllocated + sizes.objClass + o.data.methodCapacity * sizes.methodEntry;
    }

    method BlackenClosure(o: Obj)
      requires Marking([o]) && o.data.Closure? && Fine(Edges(o))
      modifies `gray, `bytesAllocated, objects`isDark
      ensures Marking([o]) && AllDark(Edges(o)) && bytesAllocated == old(bytesAllocated) + Size(sizes, o)
    {
      hide Marking, AllDark, Fine, Refs;
      NothingDark();
      ghost var a: seq<Obj?> := [o.data.fn];
      FineParts(a, o.data.upvalues);
      assert [] + a == a;
      GrayObj(o.data.fn, [o], []);
      GrayObjs(o.data.upvalues, [o], a);
      bytesAllocated := bytesAllocated + sizes.objClosure + sizes.pointer * |o.data.upvalues|;
    }

    method BlackenFiber(o: Obj)
      requires Marking([o]) && o.data.Fiber? && Fine(Edges(o))
      modifies `gray, `bytesAllocated, objects`isDark
      ensures Marking([o]) && AllDark(Edges(o)) && bytesAllocated == old(bytesAllocated) + Size(sizes, o)
    {
      hide Marking, AllDark, Fine, Refs;
      NothingDark();
      var frames, stack, open := o.data.frames, o.data.stack, o.data.openUpvalues;
      ghost var b: seq<Obj?> := [o.data.caller, RefOf(o.data.error)];
      FineParts(frames + Refs(stack) + open, b);
      FineParts(frames + Refs(stack), open);
      FineParts(frames, Refs(stack));
      assert [] + frames == frames;
      GrayObjs(frames, [o], []);
      GrayValues(stack, [o], frames);
      GrayObjs(open, [o], frames + Refs(stack));
      GrayObjs([o.data.caller, RefOf(o.data.error)], [o], frames + Refs(stack) + open);
      bytesAllocated := bytesAllocated + sizes.objFiber + o.data.frameCapacity * sizes.callFrame
          + o.data.stackCapacity * sizes.value;
    }

    method BlackenFn(o: Obj)
      requires Marking([o]) && o.data.Fn? && Fine(Edges(o))
      modifies `gray, `bytesAllocated, objects`isDark
      ensures Marking([o]) && AllDark(Edges(o)) && bytesAllocated == old(bytesAllocated) + Size(sizes, o)
    {
      hide Marking, AllDark, Fine, Refs;
      NothingDark();
      assert [] + Refs(o.data.constants) == Refs(o.data.constants);
      GrayValues(o.data.constants, [o], []);
      bytesAllocated := bytesAllocated + sizes.objFn + o.data.codeCapacity + sizes.value * o.data.constantCapacity
          + sizes.line * o.data.codeCapacity;
    }

    method BlackenInstance(o: Obj)
      requires Marking([o]) && o.data.Instance? && Fine(Edges(o))
      modifies `gray, `bytesAllocated, objects`isDark
      ensures Marking([o]) && AllDark(Edges(o)) && bytesAllocated == old(bytesAllocated) + Size(sizes, o)
    {
      hide Marking, AllDark, Fine, Refs;
      NothingDark();
      ghost var a: seq<Obj?> := [o.classObj];
      FineParts(a, Refs(o.data.fields));
      assert [] + a == a;
      GrayObj(o.classObj, [o], []);
      GrayValues(o.data.fields, [o], a);
      bytesAllocated := bytesAllocated + sizes.objInstance + sizes.value * |o.data.fields|;
    }

    method BlackenList(o: Obj)
      requires Marking([o]) && o.data.List? && Fine(Edges(o))
      modifies `gray, `bytesAllocated, objects`isDark
      ensures Marking([o]) && AllDark(Edges(o)) && bytesAllocated == old(bytesAllocated) + Size(sizes, o)
    {
      hide Marking, AllDark, Fine, Refs;
      NothingDark();
      assert [] + Refs(o.data.elements) == Refs(o.data.elements);
      GrayValues(o.data.elements, [o], []);
      bytesAllocated := bytesAllocated + sizes.objList + sizes.value * o.data.capacity;
    }

    method BlackenMap(o: Obj)
      requires Marking([o]) && o.data.Map? && Fine(Edges(o))
      modifies `gray, `bytesAllocated, objects`isDark
      ensures Marking([o]) && AllDark(Edges(o)) && bytesAllocated == old(bytesAllocated) + Size(sizes, o)
    {
      hide Marking, AllDark, Fine, Refs;
      NothingDark();
      FineParts(Refs(o.data.keys), Refs(o.data.values));
      assert [] + Refs(o.data.keys) == Refs(o.data.keys);
      GrayValues(o.data.keys, [o], []);
      GrayValues(o.data.values, [o], Refs(o.data.keys));
      bytesAllocated := bytesAllocated + sizes.objMap + sizes.mapEntry * o.data.capacity;
    }

    method BlackenModule(o: Obj)
      requires Marking([o]) && o.data.Module? && Fine(Edges(o))
      modifies `gray, `bytesAllocated, objects`isDark
      ensures Marking([o]) && AllDark(Edges(o)) && bytesAllocated == old(bytesAllocated) + Size(sizes, o)
    {
      hide Marking, AllDark, Fine, Refs;
      NothingDark();
      var names := o.data.variableNames;
      ghost var v, b: seq<Obj?> := Refs(o.data.variables), [o.data.moduleName];
      FineParts(v + names, b);
      FineParts(v, names);
      assert [] + v == v;
      GrayValues(o.data.variables, [o], []);
      GrayObjs(names, [o], v);
      GrayObj(o.data.moduleName, [o], v + names);
      bytesAllocated := bytesAllocated + o.data.namesCapacity * sizes.pointer + sizes.objModule;
    }

    method BlackenObject(o: Obj)
      requires Marking([o]) && Fine(Edges(o))
      modifies `gray, `bytesAllocated, objects`isDark
      ensures Marking([o]) && AllDark(Edges(o)) && bytesAllocated == old(bytesAllocated) + Size(sizes, o)
    {
      hide Marking, AllDark, Fine, Refs;
      NothingDark();
      match o.data
      case Class(_, _, _, _, _) => BlackenClass(o);
      case Closure(_, _) => BlackenClosure(o);
      case Fiber(_, _, _, _, _, _, _) => BlackenFiber(o);
      case Fn(_, _, _) => BlackenFn(o);
      case Foreign =>
      case Instance(_) => BlackenInstance(o);
      case List(_, _) => BlackenList(o);
      case Map(_, _, _) => BlackenMap(o);
      case Module(_, _, _, _) => BlackenModule(o);
      case Range => bytesAllocated := bytesAllocated + sizes.objRange;
      case Text(length) => bytesAllocated := bytesAllocated + sizes.objString + length + 1;
      case Upvalue(closed) =>
        RefsOne(closed);
        GrayValues([closed], [o], []);
        bytesAllocated := bytesAllocated + sizes.objUpvalue;
    }

    // Traverses the gray objects until there are none.
    method BlackenObjects()
      requires Marking([])
      modifies `gray, `bytesAllocated, `done, objects`isDark
      ensures Marking([]) && gray == []
      ensures bytesAllocated + Charge(sizes, old(done)) == old(bytesAllocated) + Charge(sizes, done)
    {
      hide MarkingOf, AllDark, Fine;
      DoneWithin();
      while |gray| > 0
        invariant Marking([]) && |done| <= |objects|
        invariant bytesAllocated + Charge(sizes, old(done)) == old(bytesAllocated) + Charge(sizes, done)
        decreases |objects| - |done|
      {
        var o := gray[|gray| - 1];
        ghost var before := gray;
        gray := gray[..|gray| - 1];
        Popped(before, o);
        BlackenObject(o);
        Traversed(done + [o] + gray, done, o);
        done := done + [o];
        assert done + [] + gray == done[..|done| - 1] + [o] + gray;
        DoneWithin();
      }
    }

    // Popping [o] off the gray stack makes it the current object.
    lemma Popped(before: seq<Obj>, o: Obj)
      requires before == gray + [o] && MarkingOf(done + [] + before, done)
      ensures Marking([o]) && Fine(Edges(o))
    {
      hide Edges, Reachable, Complete, AllDark;
      assert (done + [] + before)[|done| + |gray|] == o;
      FineEdges(o);
      Rearranged(done, gray, o);
      assert forall p :: p in done + [] + before ==> p in objects && p.isDark;
      assert forall i :: 0 <= i < |done + [o] + gray| ==> (done + [o] + gray)[i] in done + [o] + gray;
    }

    // [o] has been traversed.
    lemma Traversed(w: seq<Obj>, d: seq<Obj>, o: Obj)
      requires MarkingOf(w, d) && AllDark(Edges(o))
      ensures MarkingOf(w, d + [o])
    {
      hide Edges, AllDark, Reachable, Complete;
    }

    lemma DoneWithin()
      requires Marking([])
      ensures |done| <= |objects|
    {
      hide AllDark, Complete, Reachable;
      assert forall i :: 0 <= i < |done| ==> (done + [] + gray)[i] == done[i];
      DistinctSize(done);
      MembersSize(objects);
      Subset(Members(done), Members(objects));
    }

    // ----- Freeing -----

    // Unmarks the objects of [live], and unlinks and frees the others.
    method Sweep(ghost live: set<Obj>)
      requires Linked(objects) && first == First(objects) && forall o :: o in objects ==> (o.isDark <==> o in live)
      modifies `first, `objects, `freed, objects`next, objects`isDark
      ensures objects == Keep(old(objects), live) && freed == old(freed) + Drop(old(objects), live)
      ensures Linked(objects) && first == First(objects) && forall o :: o in objects ==> !o.isDark
    {
      hide *;
      ghost var all := objects;
      ghost var out: seq<Obj>, passed: seq<Obj>, rest := [], [], all;
      SweepStart(all, live);
      var prev: Obj? := null;
      var o := first;
      while o != null
        invariant Sweeping(all, passed, rest, out, prev, o, live) && objects == all
        invariant freed == old(freed) + Drop(passed, live)
        decreases |rest|
      {
        SweepNext(all, passed, rest, out, prev, o, live);
        var next := o.next;
        if !o.isDark {
          Free(prev, o, next, all, passed, rest, out, live);
        } else {
          Retain(o, next, all, passed, rest, out, live);
          prev := o;
          out := out + [o];
        }
        o := next;
        passed, rest := passed + [rest[0]], rest[1..];
      }
      SweepDone(all, passed, rest, out, prev, live);
      objects := out;
    }

    // Between two steps of the sweep: [passed] is swept, [out] are the objects kept,
    // and [o] is the first of [rest].
    ghost predicate Sweeping(
        all: seq<Obj>, passed: seq<Obj>, rest: seq<Obj>, out: seq<Obj>, prev: Obj?, o: Obj?, live: set<Obj>)
      reads `first, out`next, out`isDark, rest`next, rest`isDark
    {
      && all == passed + rest && Distinct(all) && o == First(rest) && out == Keep(passed, live)
      && Swept(out, o) && prev == Last(out) && first == (if out == [] then o else out[0])
      && Unswept(rest, live) && forall k {:trigger out[k]} :: 0 <= k < |out| ==> out[k] in passed
    }

    lemma SweepStart(all: seq<Obj>, live: set<Obj>)
      requires Linked(all) && first == First(all) && forall o :: o in all ==> (o.isDark <==> o in live)
      ensures Sweeping(all, [], all, [], null, first, live) && freed == freed + Drop([], live)
    {
      assert [] + all == all;
    }

    lemma SweepNext(all: seq<Obj>, passed: seq<Obj>, rest: seq<Obj>, out: seq<Obj>, prev: Obj?, o: Obj, live: set<Obj>)
      requires Sweeping(all, passed, rest, out, prev, o, live)
      ensures Ahead(all, passed, rest, live) && rest != [] && rest[0] == o && o in all && o.next == First(rest[1..])
              && (o.isDark <==> o in live)
      ensures prev == Last(out) && |rest[1..]| < |rest|
              && forall k {:trigger out[k]} :: 0 <= k < |out| ==> out[k] in all
      ensures Drop(passed + [o], live) == Drop(passed, live) + if o in live then [] else [o]
    {
      hide Keep, Drop, Distinct, Unswept, Swept, Ahead;
      Advance(all, passed, rest, live);
    }

    lemma SweepDone(all: seq<Obj>, passed: seq<Obj>, rest: seq<Obj>, out: seq<Obj>, prev: Obj?, live: set<Obj>)
      requires Sweeping(all, passed, rest, out, prev, null, live)
      ensures passed == all && Linked(out) && first == First(out) && out == Keep(all, live)
              && forall o :: o in out ==> !o.isDark
    {
      hide Keep, Unswept;
      assert rest == [] && passed == all;
    }

    // Unlinks the unmarked [o] and frees it.
    method Free(
        prev: Obj?, o: Obj, next: Obj?, ghost all: seq<Obj>, ghost passed: seq<Obj>, ghost rest: seq<Obj>,
        ghost out: seq<Obj>, ghost live: set<Obj>)
      requires Sweeping(all, passed, rest, out, prev, o, live) && Ahead(all, passed, rest, live) && o !in live
               && next == First(rest[1..])
      modifies `first, `freed, out`next
      ensures Sweeping(all, passed + [rest[0]], rest[1..], out, prev, next, live) && freed == old(freed) + [o]
    {
      hide Keep, Distinct, Unswept;
      if prev == null { first := next; }
      Relink(prev, next, out);
      freed := freed + [o];
    }

    // Unmarks the marked [o].
    method Retain(
        o: Obj, next: Obj?, ghost all: seq<Obj>, ghost passed: seq<Obj>, ghost rest: seq<Obj>, ghost out: seq<Obj>,
        ghost live: set<Obj>)
      requires Sweeping(all, passed, rest, out, Last(out), o, live) && Ahead(all, passed, rest, live) && o in live
               && next == o.next == First(rest[1..])
      modifies o`isDark
      ensures Sweeping(all, passed + [rest[0]], rest[1..], out + [o], o, next, live)
    {
      hide Keep, Distinct, Unswept, Swept;
      assert forall k {:trigger out[k]} :: 0 <= k < |out| ==> out[k] in passed && out[k] != o;
      Unmark(o, out);
    }

    // ----- A whole collection -----

    // The objects that are not garbage.
    ghost function Live(): set<Obj>
      reads `objects
    {
      set o | o in objects && Reachable(Roots(), o)
    }

    lemma FineRoots()
      requires Complete()
      ensures Fine(RootSeq())
    {
      hide Edges;
      forall i {:trigger RootSeq()[i]} | 0 <= i < |RootSeq()| && RootSeq()[i] != null
        ensures RootSeq()[i] in objects && Reachable(Roots(), RootSeq()[i])
      {
        assert RootSeq()[i] in Reach(Roots(), 0);
      }
    }

    lemma MarkingStart()
      requires Valid() && kept == [] && done == []
      ensures Marking([]) && Fine(RootSeq())
    {
      FineRoots();
      hide Edges, Complete, Reachable, Fine, RootSeq;
      assert done + [] + gray == [];
    }

    lemma RootParts()
      requires Fine(RootSeq())
      ensures Fine([modules]) && Fine(tempRoots) && Fine([fiber]) && Fine(Refs(handles)) && Fine(methodNames)
      ensures RootSeq() == [] + [modules] + tempRoots + [fiber] + Refs(handles) + methodNames
    {
      hide Fine, Refs;
      var a, b: seq<Obj?> := [modules], [fiber];
      FineParts(a + tempRoots + b + Refs(handles), methodNames);
      FineParts(a + tempRoots + b, Refs(handles));
      FineParts(a + tempRoots, b);
      FineParts(a, tempRoots);
      assert [] + a == a;
    }

    // Marks the roots.
    method GrayRoots()
      requires Marking([]) && Fine(RootSeq())
      modifies `gray, `bytesAllocated, objects`isDark
      ensures Marking([]) && AllDark(RootSeq())
              && bytesAllocated == old(bytesAllocated) + methodNamesCapacity * sizes.pointer
    {
      hide *;
      NothingDark();
      RootParts();
      ghost var a, b: seq<Obj?> := [] + [modules], [fiber];
      GrayObj(modules, [], []);
      GrayObjs(tempRoots, [], a);
      GrayObj(fiber, [], a + tempRoots);
      GrayValues(handles, [], a + tempRoots + b);
      GrayObjs(methodNames, [], a + tempRoots + b + Refs(handles));
      bytesAllocated := bytesAllocated + methodNamesCapacity * sizes.pointer;
    }

    ghost method KeepRoots()
      requires Marking([]) && AllDark(RootSeq())
      modifies `kept
      ensures Marking([]) && kept == RootSeq()
    {
      hide Edges, Complete, Reachable, RootSeq;
      kept := RootSeq();
    }

    // Once no object is gray, the dark objects are those that the roots reach.
    lemma Marked()
      requires Marking([]) && gray == [] && kept == RootSeq()
      ensures forall o :: o in objects ==> (o.isDark <==> o in Live())
      ensures forall o :: o in done <==> o in Live()
      ensures Distinct(done)
    {
      hide Edges, Reach, RootSeq;
      assert done + [] + gray == done;
      var dark := Members(done);
      assert forall o :: o in objects && o.isDark ==> o in dark;
      forall r | r in Roots() ensures r in dark {
        var i :| 0 <= i < |RootSeq()| && RootSeq()[i] != null && r == RootSeq()[i];
      }
      forall o, i | o in dark && 0 <= i < |Edges(o)| && Edges(o)[i] != null ensures Edges(o)[i] in dark {
        var j :| 0 <= j < |done| && done[j] == o;
        assert AllDark(Edges(done[j]));
      }
      forall o | Reachable(Roots(), o) ensures o in dark {
        var n: nat :| o in Reach(Roots(), n);
        ClosedReach(Roots(), dark, n);
      }
    }

    // What is kept is closed under what it refers to.
    lemma LiveComplete(all: seq<Obj>, live: set<Obj>)
      requires objects == Keep(all, live) && Distinct(all)
      requires (forall r :: r in Roots() ==> r in all) && live == set o | o in all && Reachable(Roots(), o)
      requires forall o, i :: o in all && 0 <= i < |Edges(o)| && Edges(o)[i] != null ==> Edges(o)[i] in all
      ensures Complete() && forall o :: o in objects <==> o in all && Reachable(Roots(), o)
    {
      hide Edges, RootSeq, Keep;
      KeepMembers(all, live);
      forall r | r in Roots() ensures r in objects {
        assert r in Reach(Roots(), 0);
      }
      forall o, i | o in objects && 0 <= i < |Edges(o)| && Edges(o)[i] != null ensures Edges(o)[i] in objects {
        ReachEdge(Roots(), o, i);
      }
    }

    // Marks the live objects, and counts their memory.
    lemma SurvivorsAre(all: seq<Obj>)
      requires Complete() && forall o :: o in objects <==> o in all && Reachable(Roots(), o)
      ensures forall p :: IsRoot(p) ==> p in objects
      ensures forall o, p :: o in objects && Mentions(o, p) ==> p in objects
      ensures forall o :: o in objects ==> IsRoot(o) || exists q :: q != o && q in objects && Mentions(q, o)
    {
      hide Edges, RootSeq, Roots, Mentions, Reachable, IsRoot;
      forall p | IsRoot(p) ensures p in objects {
        RootsAre(p);
      }
      forall o, p | o in objects && Mentions(o, p) ensures p in objects {
        MentionedIn(o, p);
      }
      forall o | o in objects ensures IsRoot(o) || exists q :: q != o && q in objects && Mentions(q, o) {
        RootsAre(o);
        if o !in Roots() { MentionedByOther(o); }
      }
    }

    lemma MentionedIn(o: Obj, p: Obj)
      requires Complete() && o in objects && Mentions(o, p)
      ensures p in objects
    {
      hide Edges, Roots;
      EdgesMention(o, p);
      var i :| 0 <= i < |Edges(o)| && Edges(o)[i] == p;
    }

    lemma MentionedByOther(o: Obj)
      requires Complete() && Reachable(Roots(), o) && o !in Roots()
      ensures exists q :: q != o && q in objects && Mentions(q, o)
    {
      hide Edges, Roots, Mentions;
      var n: nat :| o in Reach(Roots(), n);
      MentionedBy(Roots(), o, n);
      var q :| q != o && Reachable(Roots(), q) && Mentions(q, o);
      var k: nat :| q in Reach(Roots(), k);
      ClosedReach(Roots(), Members(objects), k);
    }

    method Mark()
      requires Valid()
      modifies `gray, `done, `kept, `bytesAllocated, objects`isDark
      ensures gray == [] && forall o :: o in objects ==> (o.isDark <==> o in Live())
      ensures bytesAllocated == methodNamesCapacity * sizes.pointer + Charge(sizes, Keep(objects, Live()))
    {
      done, kept := [], [];
      bytesAllocated := 0;
      MarkingStart();
      ObjectsDistinct();
      hide *;
      GrayRoots();
      KeepRoots();
      BlackenObjects();
      NoCharge(sizes);
      Marked();
      KeepMembers(objects, Live());
      LiveIn();
      ChargeSame(sizes, done, Keep(objects, Live()));
    }

    lemma ObjectsDistinct()
      requires Valid()
      ensures Distinct(objects)
    {
    }

    lemma LiveIn()
      ensures forall o :: o in Live() ==> o in objects
    {
    }

    // Frees exactly the objects that the roots do not reach.
    method CollectGarbage()
      requires Valid()
      modifies `first, `objects, `freed, `gray, `done, `kept, `bytesAllocated, `nextGC, objects`next, objects`isDark
      ensures Valid() && objects == Keep(old(objects), old(Live()))
              && freed == old(freed) + Drop(old(objects), old(Live()))
      ensures forall o :: o in objects <==> o in old(objects) && Reachable(Roots(), o)
      // Everything that a root or a survivor mentions survives, and every survivor is a
      // root or mentioned by another one.
      ensures forall p :: IsRoot(p) ==> p in objects
      ensures forall o, p :: o in objects && Mentions(o, p) ==> p in objects
      ensures forall o :: o in objects ==> IsRoot(o) || exists q :: q != o && q in objects && Mentions(q, o)
      ensures forall o :: o in old(objects) && o !in objects ==> o in freed
      ensures bytesAllocated == methodNamesCapacity * sizes.pointer + Charge(sizes, objects)
      ensures nextGC == var next := bytesAllocated + bytesAllocated * heapGrowthPercent / 100;
              if next < minHeapSize then minHeapSize else next
    {
      hide Edges, RootSeq, Keep, Drop, Charge, Reachable, First, Distinct;
      ghost var all, live := objects, Live();
      KeepSplit(all, live);
      Mark();
      Sweep(live);
      LiveComplete(all, live);
      SurvivorsAre(all);
      nextGC := bytesAllocated + bytesAllocated * heapGrowthPercent / 100;
      if nextGC < minHeapSize { nextGC := minHeapSize; }
    }
  }

  // When nothing but a live foreign object leads to its class, the class is freed.
  method ForeignClassFreed(vm: VM, o: Obj, c: Obj)
    requires vm.Valid() && o in vm.Roots() && o.data.Foreign? && o.classObj == c && c in vm.objects && c !in vm.Roots()
    requires forall p, i {:trigger Edges(p)[i]} :: p in vm.objects && 0 <= i < |Edges(p)| ==> Edges(p)[i] != c
    modifies vm, vm.objects
    ensures o in vm.objects && o.classObj == c && c !in vm.objects && c in vm.freed
  {
    hide Edges, VM.RootSeq, Reach, Keep, Drop, VM.Roots, Linked;
    ghost var roots, all, live := vm.Roots(), vm.objects, vm.Live();
    ghost var others := Members(all) - {c};
    forall n: nat ensures c !in Reach(roots, n) {
      ClosedReach(roots, others, n);
    }
    ReachRoot(roots, o);
    KeepSplit(all, live);
    vm.CollectGarbage();
  }

  lemma KeepSplit(all: seq<Obj>, live: set<Obj>)
    requires Linked(all)
    ensures forall o :: o in Keep(all, live) <==> o in all && o in live
    ensures forall o :: o in Drop(all, live) <==> o in all && o !in live
  {
    KeepMembers(all, live);
  }

  // Such a heap: a handle on a foreign object, and its class.
  method ForeignExample(sizes: Sizes) returns (vm: VM, o: Obj, c: Obj)
    ensures o in vm.objects && o.classObj == c && c !in vm.objects && c in vm.freed
  {
    c := new Obj(null, Class(null, [], 0, null, Plain), null);
    o := new Obj(c, Foreign, c);
    vm := new VM(sizes, [Ref(o)], o, [o, c]);
    ghost var edges := Edges(c);
    assert edges == [null, null] + [] + [null, null] && Edges(o) == [];
    assert Refs([Ref(o)][1..]) == [] && vm.RootSeq() == [null, null, o];
    assert vm.RootSeq()[2] == o;
    assert vm.Roots() == {o};
    assert Succ([o, c], 0) == c && Succ([o, c], 1) == null;
    ForeignClassFreed(vm, o, c);
  }

  method Relink(prev: Obj?, next: Obj?, ghost out: seq<Obj>)
    requires out != [] ==> Swept(out, out[|out| - 1].next)
    requires prev == Last(out)
    modifies out`next
    ensures Swept(out, next) && forall k {:trigger out[k]} :: 0 <= k < |out| - 1 ==> out[k].next == old(out[k].next)
  {
    if prev != null {
      assert prev == out[|out| - 1];
      prev.next := next;
    }
    forall k {:trigger Succ(out, k)} | 0 <= k < |out| - 1 ensures out[k].next == Succ(out, k) {
      assert old(out[k].next) == Succ(out, k);
    }
  }

  method Unmark(o: Obj, ghost out: seq<Obj>)
    requires Swept(out, o) && o !in out
    modifies o`isDark
    ensures Swept(out + [o], o.next)
  {
    o.isDark := false;
    ghost var r := out + [o];
    forall k {:trigger Succ(r, k)} | 0 <= k < |r| - 1 ensures r[k].next == Succ(r, k) {
      if k < |out| - 1 { assert out[k].next == Succ(out, k); }
    }
  }

  function Last(s: seq<Obj>): Obj? {
    if s == [] then null else s[|s| - 1]
  }

  // The objects of [s] in [live], and the others, in order.
  ghost function Keep(s: seq<Obj>, live: set<Obj>): seq<Obj> {
    if s == [] then []
    else Keep(s[..|s| - 1], live) + if s[|s| - 1] in live then [s[|s| - 1]] else []
  }

  ghost function Drop(s: seq<Obj>, live: set<Obj>): seq<Obj> {
    if s == [] then []
    else Drop(s[..|s| - 1], live) + if s[|s| - 1] in live then [] else [s[|s| - 1]]
  }

  lemma KeepNext(s: seq<Obj>, o: Obj, live: set<Obj>)
    ensures Keep(s + [o], live) == Keep(s, live) + if o in live then [o] else []
    ensures Drop(s + [o], live) == Drop(s, live) + if o in live then [] else [o]
  {
    assert (s + [o])[..|s|] == s;
  }

  lemma {:induction false} KeepMembers(s: seq<Obj>, live: set<Obj>)
    requires Distinct(s)
    ensures Distinct(Keep(s, live)) && forall o :: o in Keep(s, live) <==> o in s && o in live
    ensures forall o :: o in Drop(s, live) <==> o in s && o !in live
  {
    if s != [] {
      var t, x := s[..|s| - 1], s[|s| - 1];
      KeepMembers(t, live);
      assert s == t + [x];
      assert forall i :: 0 <= i < |t| ==> t[i] == s[i];
    }
  }

  // The kept objects [out] are unmarked and linked, and lead to [rest].
  ghost predicate Swept(out: seq<Obj>, rest: Obj?)
    reads out`next, out`isDark
  {
    && Distinct(out) && (forall k {:trigger out[k]} :: 0 <= k < |out| ==> !out[k].isDark)
    && (forall k {:trigger Succ(out, k)} :: 0 <= k < |out| - 1 ==> out[k].next == Succ(out, k))
    && (out != [] ==> out[|out| - 1].next == rest)
  }

  ghost predicate Unswept(s: seq<Obj>, live: set<Obj>)
    reads s`next, s`isDark
  {
    && (forall j {:trigger Succ(s, j)} :: 0 <= j < |s| ==> s[j].next == Succ(s, j))
    && (forall j {:trigger s[j]} :: 0 <= j < |s| ==> (s[j].isDark <==> s[j] in live))
  }

  // What the sweep of the first of [rest] relies on.
  ghost predicate Ahead(all: seq<Obj>, passed: seq<Obj>, rest: seq<Obj>, live: set<Obj>)
    reads rest`next, rest`isDark
  {
    && rest != [] && Unswept(rest[1..], live) && all == passed + [rest[0]] + rest[1..] && rest[0] !in passed
    && (forall j {:trigger rest[1..][j]} :: 0 <= j < |rest[1..]| ==> rest[1..][j] !in passed && rest[1..][j] != rest[0])
    && Keep(passed + [rest[0]], live) == Keep(passed, live) + if rest[0] in live then [rest[0]] else []
  }

  lemma Advance(all: seq<Obj>, passed: seq<Obj>, rest: seq<Obj>, live: set<Obj>)
    requires rest != [] && all == passed + rest && Distinct(all) && Unswept(rest, live)
    ensures rest[0].next == First(rest[1..]) && (rest[0].isDark <==> rest[0] in live) && Ahead(all, passed, rest, live)
    ensures Drop(passed + [rest[0]], live) == Drop(passed, live) + if rest[0] in live then [] else [rest[0]]
  {
    hide Keep, Drop;
    KeepNext(passed, rest[0], live);
    assert rest[0].next == Succ(rest, 0);
    assert forall i {:trigger passed[i]} :: 0 <= i < |passed| ==> passed[i] == all[i];
    var t := rest[1..];
    forall j {:trigger Succ(t, j)} | 0 <= j < |t| ensures t[j].next == Succ(t, j) {
      assert rest[j + 1].next == Succ(rest, j + 1);
    }
    forall j {:trigger t[j]} | 0 <= j < |t| ensures t[j] !in passed && t[j] != rest[0] {
      assert t[j] == all[|passed| + 1 + j] && rest[0] == all[|passed|];
    }
    assert rest[0] == all[|passed|];
  }

  lemma {:induction false} MembersSize(s: seq<Obj>)
    ensures |Members(s)| <= |s|
  {
    if s != [] {
      var t := s[..|s| - 1];
      MembersSize(t);
      assert Members(s) == Members(t) + {s[|s| - 1]};
    }
  }

  lemma Subset(a: set<Obj>, b: set<Obj>)
    requires a <= b
    ensures |a| <= |b|
  {
    assert b == a + (b - a);
  }

  lemma {:induction false} DistinctSize(s: seq<Obj>)
    requires Distinct(s)
    ensures |Members(s)| == |s|
  {
    if s != [] {
      var t := s[..|s| - 1];
      DistinctSize(t);
      assert Members(s) == Members(t) + {s[|s| - 1]};
    }
  }

  lemma Rearranged(a: seq<Obj>, b: seq<Obj>, o: Obj)
    requires Distinct(a + [] + (b + [o]))
    ensures Distinct(a + [o] + b) && forall p :: p in a + [o] + b <==> p in a + [] + (b + [o])
  {
    var w, w' := a + [] + (b + [o]), a + [o] + b;
    forall i | 0 <= i < |w'| ensures w'[i] == w[if i < |a| then i else if i == |a| then |w| - 1 else i - 1] {
    }
    forall p | p in w ensures p in w' {
      var i :| 0 <= i < |w| && w[i] == p;
      assert w'[if i < |a| then i else if i == |w| - 1 then |a| else i + 1] == p;
    }
  }

  lemma RefsOne(v: Val)
    ensures Refs([v]) == [RefOf(v)] && [] + [RefOf(v)] == [RefOf(v)]
  {
  }


  lemma {:induction false} ChargeRemove(z: Sizes, s: seq<Obj>, k: nat)
    requires k < |s|
    ensures Charge(z, s) == Charge(z, s[..k] + s[k + 1..]) + Size(z, s[k])
  {
    hide Size;
    var n := |s| - 1;
    if k < n {
      ChargeRemove(z, s[..n], k);
      var r := s[..k] + s[k + 1..];
      assert r[..|r| - 1] == s[..n][..k] + s[..n][k + 1..] && r[|r| - 1] == s[n];
    } else {
      assert s[..k] + s[k + 1..] == s[..n];
    }
  }

  lemma NoCharge(z: Sizes)
    ensures Charge(z, []) == 0
  {
  }

  lemma WithoutOne(s: seq<Obj>, k: nat)
    requires Distinct(s) && k < |s|
    ensures var r := s[..k] + s[k + 1..]; Distinct(r) && forall o :: o in r <==> o in s && o != s[k]
  {
    var r := s[..k] + s[k + 1..];
    forall i, j | 0 <= i < j < |r| ensures r[i] != r[j] {
      assert r[i] == s[if i < k then i else i + 1] && r[j] == s[if j < k then j else j + 1];
    }
    assert s == s[..k] + [s[k]] + s[k + 1..];
  }

  // The charge does not depend on the order.
  lemma {:induction false} ChargeSame(z: Sizes, a: seq<Obj>, b: seq<Obj>)
    requires Distinct(a) && Distinct(b) && forall o :: o in a <==> o in b
    ensures Charge(z, a) == Charge(z, b)
  {
    hide Size, Distinct;
    if a == [] {
      DistinctSize(b);
      assert Members(b) == {};
    } else {
      var t, x := a[..|a| - 1], a[|a| - 1];
      assert x in a && a[..|a| - 1] + a[|a|..] == t;
      var k :| 0 <= k < |b| && b[k] == x;
      WithoutOne(a, |a| - 1);
      WithoutOne(b, k);
      ChargeRemove(z, b, k);
      ChargeSame(z, t, b[..k] + b[k + 1..]);
    }
  }
}
