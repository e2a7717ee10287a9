/** Captured variables: the open upvalues of a fiber point into its stack, closed
    ones hold their value. Whatever happens to the stack, they behave as if every
    variable lived in a heap cell of its own. */
module Upvalues {
  import opened Bits
  import opened Options
  import opened Syntax

  // ----- One heap cell per variable -----

  // [slots] gives the cell of each stack slot, [heap] the value of each cell, and
  // [captured] the cells that closures hold.
  datatype Cells = Cells(slots: seq<nat>, heap: seq<Value>, captured: seq<nat>)

  // What running code does to variables.
  datatype Op =
    | Push(value: Value)
    | Drop
    | LoadLocal(slot: nat)
    | StoreLocal(slot: nat, value: Value)
    | Capture(slot: nat)
    | LoadUpvalue(k: nat)
    | StoreUpvalue(k: nat, value: Value)
    | CloseFrom(slot: nat)
    | Reserve(needed: nat)

  predicate WellScoped(c: Cells) {
    && (forall i :: 0 <= i < |c.slots| ==> c.slots[i] < |c.heap|)
    && (forall k :: 0 <= k < |c.captured| ==> c.captured[k] < |c.heap|)
    && (forall i, j :: 0 <= i < j < |c.slots| ==> c.slots[i] != c.slots[j])
  }

  // The compiler pops a captured variable only by closing it.
  predicate Legal(c: Cells, op: Op) {
    match op
    case Push(_) => true
    case Drop => c.slots != [] && c.slots[|c.slots| - 1] !in c.captured
    case LoadLocal(slot) => slot < |c.slots|
    case StoreLocal(slot, _) => slot < |c.slots|
    case Capture(slot) => slot < |c.slots|
    case LoadUpvalue(k) => k < |c.captured|
    case StoreUpvalue(k, _) => k < |c.captured|
    case CloseFrom(slot) => slot <= |c.slots|
    case Reserve(needed) => needed >= |c.slots|
  }

  function After(c: Cells, op: Op): (r: Cells)
    requires WellScoped(c) && Legal(c, op)
    ensures WellScoped(r)
  {
    match op
    case Push(v) => c.(slots := c.slots + [|c.heap|], heap := c.heap + [v])
    case Drop => c.(slots := c.slots[..|c.slots| - 1])
    case StoreLocal(slot, v) => c.(heap := c.heap[c.slots[slot] := v])
    case Capture(slot) => c.(captured := c.captured + [c.slots[slot]])
    case StoreUpvalue(k, v) => c.(heap := c.heap[c.captured[k] := v])
    case CloseFrom(slot) => c.(slots := c.slots[..slot])
    case _ => c
  }

  // The value that an operation reads, if it reads one.
  function Reads(c: Cells, op: Op): seq<Value>
    requires WellScoped(c) && Legal(c, op)
  {
    match op
    case LoadLocal(slot) => [c.heap[c.slots[slot]]]
    case LoadUpvalue(k) => [c.heap[c.captured[k]]]
    case _ => []
  }

  predicate LegalRun(c: Cells, ops: seq<Op>)
    requires WellScoped(c)
    decreases |ops|
  {
    ops == [] || (Legal(c, ops[0]) && LegalRun(After(c, ops[0]), ops[1..]))
  }

  // Everything read by a run.
  function ReadsOf(c: Cells, ops: seq<Op>): seq<Value>
    requires WellScoped(c) && LegalRun(c, ops)
    decreases |ops|
  {
    if ops == [] then [] else Reads(c, ops[0]) + ReadsOf(After(c, ops[0]), ops[1..])
  }

  // The cell that an operation writes, if it writes one.
  function Writes(c: Cells, op: Op): set<nat>
    requires WellScoped(c) && Legal(c, op)
  {
    match op
    case StoreLocal(slot, _) => {c.slots[slot]}
    case StoreUpvalue(k, _) => {c.captured[k]}
    case _ => {}
  }

  predicate Spares(c: Cells, ops: seq<Op>, cell: nat)
    requires WellScoped(c) && LegalRun(c, ops)
    decreases |ops|
  {
    ops == [] || (cell !in Writes(c, ops[0]) && Spares(After(c, ops[0]), ops[1..], cell))
  }

  function Final(c: Cells, ops: seq<Op>): (r: Cells)
    requires WellScoped(c) && LegalRun(c, ops)
    ensures WellScoped(r)
    decreases |ops|
  {
    if ops == [] then c else Final(After(c, ops[0]), ops[1..])
  }

  // A variable changes only when it is stored, in its slot or through an upvalue
  // that captured it: not when its slot is left, reused, or moved. What captured
  // it still holds it, and no new variable does.
  lemma {:induction false} VariablePersists(c: Cells, ops: seq<Op>, cell: nat)
    requires WellScoped(c) && LegalRun(c, ops) && cell < |c.heap| && Spares(c, ops, cell)
    ensures var end := Final(c, ops);
            && cell < |end.heap| && end.heap[cell] == c.heap[cell] && c.captured <= end.captured
            && (cell !in c.slots ==> cell !in end.slots)
    decreases |ops|
  {
    if ops != [] { VariablePersists(After(c, ops[0]), ops[1..], cell); }
  }

  lemma {:induction false} RunMore(c: Cells, ops: seq<Op>, op: Op)
    requires WellScoped(c) && LegalRun(c, ops)
    ensures LegalRun(c, ops + [op]) <==> Legal(Final(c, ops), op)
    ensures Legal(Final(c, ops), op) ==>
              Final(c, ops + [op]) == After(Final(c, ops), op)
              && ReadsOf(c, ops + [op]) == ReadsOf(c, ops) + Reads(Final(c, ops), op)
    decreases |ops|
  {
    hide WellScoped, Legal, After, Reads;
    if ops == [] {
      assert [op][1..] == [] && [] + [op] == [op];
    } else {
      assert (ops + [op])[1..] == ops[1..] + [op] && (ops + [op])[0] == ops[0];
      RunMore(After(c, ops[0]), ops[1..], op);
    }
  }

  // ----- What a run reads, by its history -----

  // Variables are known by the order in which they are pushed. These are the ones on the
  // stack after [ops], and the ones captured, in order.
  function Pushed(ops: seq<Op>): nat {
    if ops == [] then 0
    else Pushed(ops[..|ops| - 1]) + if ops[|ops| - 1].Push? then 1 else 0
  }

  function OnStack(ops: seq<Op>): seq<nat> {
    if ops == [] then []
    else
      var s, op := OnStack(ops[..|ops| - 1]), ops[|ops| - 1];
      match op
      case Push(_) => s + [Pushed(ops[..|ops| - 1])]
      case Drop => if s == [] then s else s[..|s| - 1]
      case CloseFrom(slot) => if slot <= |s| then s[..slot] else s
      case _ => s
  }

  function CapturedBy(ops: seq<Op>): seq<nat> {
    if ops == [] then []
    else
      var before, op := ops[..|ops| - 1], ops[|ops| - 1];
      match op
      case Capture(slot) =>
        CapturedBy(before) + if slot < |OnStack(before)| then [OnStack(before)[slot]] else []
      case _ => CapturedBy(before)
  }

  // The variable that an operation after [ops] loads or stores, in its slot or as an
  // upvalue.
  function Accessed(ops: seq<Op>, op: Op): Option<nat> {
    match op
    case LoadLocal(slot) => if slot < |OnStack(ops)| then Some(OnStack(ops)[slot]) else None
    case StoreLocal(slot, _) => if slot < |OnStack(ops)| then Some(OnStack(ops)[slot]) else None
    case LoadUpvalue(k) => if k < |CapturedBy(ops)| then Some(CapturedBy(ops)[k]) else None
    case StoreUpvalue(k, _) => if k < |CapturedBy(ops)| then Some(CapturedBy(ops)[k]) else None
    case _ => None
  }

  // The value that was stored last in variable [x], or pushed with it.
  function LastStored(ops: seq<Op>, x: nat): Value {
    if ops == [] then Null
    else
      var before, op := ops[..|ops| - 1], ops[|ops| - 1];
      if op.Push? && x == Pushed(before) then op.value
      else if (op.StoreLocal? || op.StoreUpvalue?) && Accessed(before, op) == Some(x) then op.value
      else LastStored(before, x)
  }

  // What the loads of [ops] read, by that.
  function Loaded(ops: seq<Op>): seq<Value> {
    if ops == [] then []
    else
      var before, op := ops[..|ops| - 1], ops[|ops| - 1];
      Loaded(before)
      + match (op, Accessed(before, op))
        case (LoadLocal(_), Some(x)) => [LastStored(before, x)]
        case (LoadUpvalue(_), Some(x)) => [LastStored(before, x)]
        case _ => []
  }

  // Every load reads what was stored last in its variable, whether its slot is still
  // there or not.
  lemma {:induction false} ReadsLast(ops: seq<Op>)
    requires LegalRun(Cells([], [], []), ops)
    ensures var end := Final(Cells([], [], []), ops);
            && end.slots == OnStack(ops) && end.captured == CapturedBy(ops) && |end.heap| == Pushed(ops)
            && forall x :: 0 <= x < Pushed(ops) ==> end.heap[x] == LastStored(ops, x)
    ensures ReadsOf(Cells([], [], []), ops) == Loaded(ops)
    decreases |ops|
  {
    var c := Cells([], [], []);
    if ops != [] {
      var before, op := ops[..|ops| - 1], ops[|ops| - 1];
      assert ops == before + [op];
      LegalBefore(c, before, op);
      RunMore(c, before, op);
      ReadsLast(before);
      LastStep(before, op, Final(c, before));
    }
  }

  lemma {:induction false} LegalBefore(c: Cells, ops: seq<Op>, op: Op)
    requires WellScoped(c) && LegalRun(c, ops + [op])
    ensures LegalRun(c, ops)
    decreases |ops|
  {
    hide WellScoped, Legal, After;
    if ops != [] {
      assert (ops + [op])[1..] == ops[1..] + [op] && (ops + [op])[0] == ops[0];
      LegalBefore(After(c, ops[0]), ops[1..], op);
    }
  }

  lemma LastStep(before: seq<Op>, op: Op, c: Cells)
    requires WellScoped(c) && Legal(c, op)
    requires c.slots == OnStack(before) && c.captured == CapturedBy(before) && |c.heap| == Pushed(before)
    requires forall x :: 0 <= x < Pushed(before) ==> c.heap[x] == LastStored(before, x)
    ensures var ops, end := before + [op], After(c, op);
            && end.slots == OnStack(ops) && end.captured == CapturedBy(ops) && |end.heap| == Pushed(ops)
            && (forall x :: 0 <= x < Pushed(ops) ==> end.heap[x] == LastStored(ops, x))
            && Loaded(ops) == Loaded(before) + Reads(c, op)
  {
    var ops := before + [op];
    assert ops[..|ops| - 1] == before && ops[|ops| - 1] == op;
  }

  // ----- Fibers -----

  // A pointer to a value: into the buffer of a stack, or to the upvalue's own copy.
  datatype Pointer = Stack(buffer: array<Value>, index: nat) | Own

  class Upvalue {
    var value: Pointer
    var closed: Value
    var next: Upvalue?

    constructor (local: Pointer)
      ensures value == local && closed == Null && next == null
    {
      value, closed, next := local, Null, null;
    }
  }

  predicate Descending(s: seq<nat>) {
    forall i, j :: 0 <= i < j < |s| ==> s[i] > s[j]
  }

  function InsertAt<T>(s: seq<T>, i: nat, x: T): seq<T>
    requires i <= |s|
  {
    s[..i] + [x] + s[i..]
  }

  lemma Inserted<T>(s: seq<T>, i: nat, x: T)
    requires i <= |s|
    ensures var r := InsertAt(s, i, x);
            && |r| == |s| + 1 && r[i] == x
            && (forall j :: 0 <= j < |r| && j != i ==> r[j] == s[if j < i then j else j - 1])
            && (forall y :: y in r <==> y == x || y in s)
  {
    var r := InsertAt(s, i, x);
    assert s == s[..i] + s[i..];
    forall y | y in s ensures y in r {
      var j :| 0 <= j < |s| && s[j] == y;
      assert r[if j < i then j else j + 1] == y;
    }
  }

  lemma DescendingHere(s: seq<nat>, i: nat, x: nat)
    requires Descending(s) && i <= |s| && (forall j :: 0 <= j < i ==> s[j] > x) && (i < |s| ==> s[i] < x)
    ensures Descending(InsertAt(s, i, x))
  {
    DescendingInsert(s, i, x);
  }

  lemma DescendingInsert(s: seq<nat>, i: nat, x: nat)
    requires Descending(s) && i <= |s| && (i > 0 ==> s[i - 1] > x) && (i < |s| ==> s[i] < x)
    ensures Descending(InsertAt(s, i, x))
  {
  }

  function Successor(s: seq<Upvalue>, i: nat): Upvalue?
    requires i < |s|
  {
    if i + 1 < |s| then s[i + 1] else null
  }

  // The smallest power of two that is at least [n].
  function PowerOf2Ceil(n: nat): (r: nat)
    ensures r >= n && IsPowerOf2(r) && (r == 1 || r / 2 < n)
  {
    if n <= 1 then 1 else 2 * PowerOf2Ceil((n + 1) / 2)
  }

  // The same by copying the highest bit of n - 1 to all lower ones, on 32 bits.
  function SmearedCeil(n: bv32): bv32 {
    var a := n - 1;
    var b := a | (a >> 1);
    var c := b | (b >> 2);
    var d := c | (c >> 4);
    var e := d | (d >> 8);
    var f := e | (e >> 16);
    f + 1
  }

  // It is a power of two, the smallest that is at least [n].
  lemma SmearedIsCeil(n: bv32)
    requires 0 < n <= 0x8000_0000
    ensures var r := SmearedCeil(n); r & (r - 1) == 0 && r >= n && (r >> 1) < n
  {
  }

  // Only one number is that.
  lemma {:induction false} CeilUnique(n: nat, r: nat)
    requires IsPowerOf2(r) && r >= n && (r == 1 || r / 2 < n)
    ensures r == PowerOf2Ceil(n)
    decreases r
  {
    if r > 1 { CeilUnique((n + 1) / 2, r / 2); }
  }

  // [u] gives access to the value of [cell]. If it is closed, that is not the cell of
  // a slot below [limit].
  ghost predicate Holds(u: Upvalue, c: Cells, cell: nat, limit: nat)
    requires limit <= |c.slots| && cell < |c.heap|
    reads u
  {
    match u.value
    case Own => u.closed == c.heap[cell] && forall i :: 0 <= i < limit ==> c.slots[i] != cell
    case Stack(_, index) => index < |c.slots| && cell == c.slots[index]
  }

  class Fiber {
    var stack: array<Value>
    var stackTop: nat
    var openUpvalues: Upvalue?
    // The upvalues that closures hold, in the order they were captured.
    var upvalues: seq<Upvalue>

    // The open upvalues, from the top of the stack down.
    ghost var open: seq<Upvalue>
    ghost var openSlots: seq<nat>
    ghost var all: set<Upvalue>
    ghost var cells: Cells
    ghost var cellOf: map<Upvalue, nat>

    ghost predicate PointsAt(u: Upvalue, slot: nat)
      reads `stack, u`value
    {
      u.value == Stack(stack, slot)
    }

    ghost predicate Chained()
      reads `open, open`next
    {
      forall i {:trigger Successor(open, i)} :: 0 <= i < |open| ==> open[i].next == Successor(open, i)
    }

    // The open list is linked, and strictly descends the stack.
    ghost predicate Linked()
      reads `stack, `openUpvalues, `open, `openSlots, `all, all`value, all`next
    {
      && openUpvalues == (if open == [] then null else open[0])
      && |openSlots| == |open| && Descending(openSlots)
      && (forall i :: 0 <= i < |open| ==> open[i] in all && PointsAt(open[i], openSlots[i]))
      && Chained()
      && (forall u :: u in all && u !in open ==> u.value.Own?)
    }

    // The stack and the upvalues hold what the cells hold, and no closed upvalue
    // holds the cell of a slot below [limit]. Nothing is said of the upvalues [but].
    ghost predicate CoupledBut(limit: nat, but: set<Upvalue>)
      reads `stack, `stackTop, `upvalues, `all, `cells, `cellOf, all - but, stack
    {
      && limit <= stackTop
      && WellScoped(cells) && |cells.slots| == stackTop <= stack.Length
      && (forall i :: 0 <= i < stackTop ==> stack[i] == cells.heap[cells.slots[i]])
      && cellOf.Keys == all
      && (forall u :: u in all ==> cellOf[u] < |cells.heap|)
      && (forall u, v :: u in all && v in all && u != v ==> cellOf[u] != cellOf[v])
      && (forall u :: u in all - but ==> Holds(u, cells, cellOf[u], limit))
      && |upvalues| == |cells.captured|
      && (forall k :: 0 <= k < |upvalues| ==> upvalues[k] in all && cellOf[upvalues[k]] == cells.captured[k])
    }

    ghost predicate Coupled(limit: nat)
      reads `stack, `stackTop, `upvalues, `all, `cells, `cellOf, all, stack
    {
      CoupledBut(limit, {})
    }

    ghost predicate Valid()
      reads this, all, stack
    {
      Linked() && Coupled(stackTop)
    }

    constructor (capacity: nat)
      ensures Valid() && fresh(stack) && all == {} && cells == Cells([], [], [])
    {
      stack := new Value[capacity](_ => Null);
      stackTop, openUpvalues, upvalues := 0, null, [];
      openSlots := [];
      open, all, cells, cellOf := [], {}, Cells([], [], []), map[];
    }

    // An open upvalue holds the cell of its slot, and no other one does.
    lemma Found(u: Upvalue, i: nat)
      requires Valid() && i < |open| && open[i] == u
      ensures u in all && openSlots[i] < stackTop == |cells.slots| && cellOf.Keys == all
              && cellOf[u] == cells.slots[openSlots[i]]
      ensures forall v :: v in all && cellOf[v] == cellOf[u] ==> v == u
    {
      assert PointsAt(open[i], openSlots[i]) && Holds(u, cells, cellOf[u], stackTop);
    }

    lemma OpenDistinct()
      requires Linked()
      ensures forall i, j :: 0 <= i < j < |open| ==> open[i] != open[j]
    {
      forall i, j | 0 <= i < j < |open| ensures open[i] != open[j] {
        assert PointsAt(open[i], openSlots[i]) && PointsAt(open[j], openSlots[j]);
      }
    }

    lemma SlotInStack()
      requires Coupled(stackTop)
      ensures |cells.slots| == stackTop <= stack.Length && cellOf.Keys == all
    {
    }

    // The upvalue for the local in [slot]: the one there is, or a new one linked in
    // at its place.
    method CaptureUpvalue(slot: nat) returns (u: Upvalue)
      requires Valid() && slot < stackTop
      modifies `openUpvalues, `open, `openSlots, `all, `cellOf, all`next
      ensures Valid() && u in all && cellOf[u] == cells.slots[slot]
      ensures all == old(all) + {u} && fresh(all - old(all))
      ensures forall v :: v in old(all) ==> cellOf[v] == old(cellOf)[v]
      ensures forall v :: v in old(all) && old(cellOf)[v] == cells.slots[slot] ==> u == v
    {
      hide Coupled, Linked, Chained, Descending;
      SlotInStack();
      var prev, upvalue, i := FindOpen(slot);
      if upvalue != null && upvalue.value.index == slot {
        u := upvalue;
        Found(u, i);
        return;
      }
      NotCaptured(slot, i);
      u := Link(prev, upvalue, slot, i);
      cellOf := cellOf[u := cells.slots[slot]];
      CoupledWith(u, slot);
    }

    twostate lemma CoupledWith(new u: Upvalue, slot: nat)
      requires old(Coupled(stackTop)) && slot < old(stackTop) && u !in old(all) && all == old(all) + {u}
               && u.value == Stack(stack, slot)
      requires stack == old(stack) && stackTop == old(stackTop) && upvalues == old(upvalues) && cells == old(cells)
      requires stack[..] == old(stack[..]) && cellOf == old(cellOf)[u := cells.slots[slot]]
      requires forall v :: v in old(all) ==> v.value == old(v.value) && v.closed == old(v.closed)
      requires forall v :: v in old(all) ==> old(cellOf)[v] != cells.slots[slot]
      ensures Coupled(stackTop)
    {
      assert forall i :: 0 <= i < stackTop ==> stack[i] == stack[..][i] == old(stack[..])[i];
      assert forall v :: v in old(all) ==> old(Holds(v, cells, cellOf[v], stackTop));
    }

    // Walks down the open list to where [slot] belongs, at position [i].
    method FindOpen(slot: nat) returns (prev: Upvalue?, upvalue: Upvalue?, ghost i: nat)
      requires Linked()
      ensures i <= |open|
      ensures upvalue == if i < |open| then open[i] else null
      ensures prev == if i > 0 then open[i - 1] else null
      ensures forall j :: 0 <= j < i ==> openSlots[j] > slot
      ensures i < |open| ==> PointsAt(open[i], openSlots[i]) && openSlots[i] <= slot
    {
      prev, upvalue, i := null, openUpvalues, 0;
      while upvalue != null && upvalue.value.index > slot
        invariant 0 <= i <= |open|
        invariant upvalue == if i < |open| then open[i] else null
        invariant prev == if i > 0 then open[i - 1] else null
        invariant forall j :: 0 <= j < i ==> openSlots[j] > slot
        decreases |open| - i
      {
        assert PointsAt(open[i], openSlots[i]) && upvalue.next == Successor(open, i);
        prev := upvalue;
        upvalue := upvalue.next;
        i := i + 1;
      }
      if i < |open| { assert PointsAt(open[i], openSlots[i]); }
    }

    // Makes an upvalue for [slot] between [prev] and [next], the neighbours at
    // position [i] of the open list.
    method Link(prev: Upvalue?, next: Upvalue?, slot: nat, ghost i: nat) returns (u: Upvalue)
      requires Linked() && slot < stackTop && i <= |open|
      requires next == (if i < |open| then open[i] else null) && prev == (if i > 0 then open[i - 1] else null)
      requires forall j :: 0 <= j < i ==> openSlots[j] > slot
      requires i < |open| ==> openSlots[i] < slot
      modifies `openUpvalues, `open, `openSlots, `all, all`next
      ensures Linked() && fresh(u) && all == old(all) + {u} && u.value == Stack(stack, slot)
    {
      hide InsertAt, Descending;
      OpenDistinct();
      u := new Upvalue(Stack(stack, slot));
      if prev == null {
        openUpvalues := u;
      } else {
        prev.next := u;
      }
      u.next := next;
      ghost var before, slots := open, openSlots;
      open, openSlots, all := InsertAt(before, i, u), InsertAt(slots, i, slot), all + {u};
      Relinked(before, slots, u, slot, prev, i);
    }

    // The list with [u] inserted at position [i] satisfies all that is asked of it.
    lemma Relinked(before: seq<Upvalue>, slots: seq<nat>, u: Upvalue, slot: nat, prev: Upvalue?, i: nat)
      requires i <= |before| == |slots| && PointsAt(u, slot) && u in all && Descending(slots)
      requires open == InsertAt(before, i, u) && openSlots == InsertAt(slots, i, slot)
      requires forall j :: 0 <= j < |before| ==> before[j] in all && PointsAt(before[j], slots[j])
      requires (forall j :: 0 <= j < i ==> slots[j] > slot) && (i < |slots| ==> slots[i] < slot)
      requires forall j, k :: 0 <= j < k < |before| ==> before[j] != before[k]
      requires prev == if i > 0 then before[i - 1] else null
      requires if prev == null then openUpvalues == u else prev.next == u && openUpvalues == before[0]
      requires u.next == if i < |before| then before[i] else null
      requires forall k {:trigger Successor(before, k)} :: 0 <= k < |before| && before[k] != prev ==>
                 before[k].next == Successor(before, k)
      requires forall v :: v in all && v != u && v !in before ==> v.value.Own?
      ensures Linked()
    {
      hide InsertAt, Descending, Chained;
      DescendingHere(slots, i, slot);
      Repointed(before, slots, u, slot, i);
      Rechained(before, u, prev, i);
    }

    lemma Repointed(before: seq<Upvalue>, slots: seq<nat>, u: Upvalue, slot: nat, i: nat)
      requires i <= |before| == |slots| && PointsAt(u, slot) && u in all
      requires open == InsertAt(before, i, u) && openSlots == InsertAt(slots, i, slot)
      requires forall j :: 0 <= j < |before| ==> before[j] in all && PointsAt(before[j], slots[j])
      ensures |open| == |openSlots| == |before| + 1 && forall v :: v in open <==> v == u || v in before
      ensures open[0] == if i > 0 then before[0] else u
      ensures forall j :: 0 <= j < |open| ==> open[j] in all && PointsAt(open[j], openSlots[j])
    {
      hide InsertAt;
      Inserted(before, i, u);
      Inserted(slots, i, slot);
    }

    // Putting [u] at position [i], after [prev], keeps the list chained.
    lemma Rechained(before: seq<Upvalue>, u: Upvalue, prev: Upvalue?, i: nat)
      requires i <= |before| && open == InsertAt(before, i, u)
      requires forall j, k :: 0 <= j < k < |before| ==> before[j] != before[k]
      requires prev == if i > 0 then before[i - 1] else null
      requires prev != null ==> prev.next == u
      requires u.next == if i < |before| then before[i] else null
      requires forall k {:trigger Successor(before, k)} :: 0 <= k < |before| && before[k] != prev ==>
                 before[k].next == Successor(before, k)
      ensures Chained()
    {
      hide InsertAt;
      Inserted(before, i, u);
      forall j {:trigger Successor(open, j)} | 0 <= j < |open| ensures open[j].next == Successor(open, j) {
        if j != i && j + 1 != i {
          var k := if j < i then j else j - 1;
          assert before[k].next == Successor(before, k);
        }
      }
    }

    // Below the place where the search for [slot] stopped, nothing captures it.
    lemma NotCaptured(slot: nat, i: nat)
      requires Valid() && slot < stackTop && i <= |open|
      requires forall j :: 0 <= j < i ==> openSlots[j] > slot
      requires i < |open| ==> openSlots[i] < slot
      ensures forall u :: u in all ==> cellOf[u] != cells.slots[slot]
    {
      forall u | u in all ensures cellOf[u] != cells.slots[slot] {
        assert Holds(u, cells, cellOf[u], stackTop);
        if u in open {
          var j :| 0 <= j < |open| && open[j] == u;
          assert PointsAt(open[j], openSlots[j]) && openSlots[j] != slot;
        }
      }
    }

    // Closes the open upvalues for the slots at [last] and above: each takes over
    // the value of its slot.
    method CloseUpvalues(last: nat)
      requires Valid() && last <= stackTop
      modifies `openUpvalues, `open, `openSlots, all`value, all`closed
      ensures Linked() && Coupled(last)
      ensures forall i :: 0 <= i < |openSlots| ==> openSlots[i] < last
    {
      hide Linked, Coupled;
      CoupledLess(last);
      FirstOpen();
      while openUpvalues != null && openUpvalues.value.index >= last
        invariant Linked() && Coupled(last) && stackTop <= stack.Length
        invariant if open == [] then openUpvalues == null else openUpvalues == open[0] && FirstPoints()
        decreases |open|
      {
        CloseFirst(last);
        FirstOpen();
      }
      RestBelow(last);
    }

    ghost predicate FirstPoints()
      reads `stack, `open, `openSlots, `all, all`value
    {
      open != [] && openSlots != [] && open[0] in all && PointsAt(open[0], openSlots[0])
    }

    lemma FirstOpen()
      requires Linked()
      ensures if open == [] then openUpvalues == null else openUpvalues == open[0] && FirstPoints()
    {
    }

    lemma CoupledLess(last: nat)
      requires Coupled(stackTop) && last <= stackTop
      ensures Coupled(last) && stackTop <= stack.Length
    {
    }

    // The topmost open upvalue is below [last], so all are.
    lemma RestBelow(last: nat)
      requires Linked() && (open != [] ==> openSlots != [] && openSlots[0] < last)
      ensures forall i :: 0 <= i < |openSlots| ==> openSlots[i] < last
    {
    }

    // Closes the topmost open upvalue, whose slot is at [last] or above.
    method CloseFirst(ghost last: nat)
      requires Linked() && Coupled(last) && openUpvalues != null && FirstPoints() && openUpvalues == open[0]
      requires stackTop <= stack.Length && openSlots[0] >= last
      modifies `openUpvalues, `open, `openSlots, all`value, all`closed
      ensures Linked() && Coupled(last) && open == old(open)[1..]
    {
      hide Coupled, CoupledBut, Descending, Chained;
      var upvalue := openUpvalues;
      ghost var before, slots := open, openSlots;
      OpenDistinct();
      FirstCell(last);
      ChainedFrom(before);
      upvalue.closed := stack[upvalue.value.index];
      upvalue.value := Own;
      openUpvalues := upvalue.next;
      open, openSlots := before[1..], slots[1..];
      LinkedTail(before, slots);
      CoupledAgain(upvalue, slots[0], last);
    }

    // The first open upvalue holds the cell of its slot.
    lemma FirstCell(last: nat)
      requires Coupled(last) && FirstPoints()
      ensures |cells.slots| == stackTop && openSlots[0] < stackTop && cellOf.Keys == all
              && cellOf[open[0]] == cells.slots[openSlots[0]]
      ensures CoupledBut(last, {open[0]})
    {
      assert Holds(open[0], cells, cellOf[open[0]], last);
    }

    lemma CoupledAgain(u: Upvalue, slot: nat, last: nat)
      requires CoupledBut(last, {u}) && u in all && last <= slot < stackTop
      requires u.value == Own && u.closed == stack[slot] && cellOf[u] == cells.slots[slot]
      ensures Coupled(last)
    {
    }

    lemma ChainedFrom(before: seq<Upvalue>)
      requires Chained() && open == before && before != []
      ensures open[0].next == Successor(before, 0)
      ensures forall k {:trigger Successor(before, k)} :: 0 <= k < |before| ==> before[k].next == Successor(before, k)
    {
    }

    // What is left of the list once its first upvalue is closed.
    lemma LinkedTail(before: seq<Upvalue>, slots: seq<nat>)
      requires before != [] && |slots| == |before| && open == before[1..] && openSlots == slots[1..]
               && Descending(slots)
      requires openUpvalues == Successor(before, 0) && before[0].value.Own?
      requires forall j :: 1 <= j < |before| ==> before[j] in all && PointsAt(before[j], slots[j])
      requires forall k {:trigger Successor(before, k)} :: 0 <= k < |before| ==> before[k].next == Successor(before, k)
      requires forall v :: v in all && v !in before ==> v.value.Own?
      ensures Linked()
    {
      forall i {:trigger Successor(open, i)} | 0 <= i < |open| ensures open[i].next == Successor(open, i) {
        assert before[i + 1].next == Successor(before, i + 1);
      }
      forall v | v in all && v !in open ensures v.value.Own? {
        if v in before { assert before == [before[0]] + open; }
      }
    }

    // Leaves the scope of the slots at [last] and above.
    method CloseFrom(last: nat)
      requires Valid() && last <= stackTop
      modifies `openUpvalues, `open, `openSlots, `stackTop, `cells, all`value, all`closed
      ensures Valid() && cells == After(old(cells), Op.CloseFrom(last))
    {
      hide Linked, Coupled, UpvaluesHold;
      ghost var before := cells;
      CloseUpvalues(last);
      OpenBelow(last);
      stackTop := last;
      cells := before.(slots := before.slots[..last]);
      LowerTop(before, last);
    }

    // Only the first [last] slots are left.
    lemma LowerTop(before: Cells, last: nat)
      requires stackTop == last <= |before.slots| && cells == before.(slots := before.slots[..last])
               && last <= stack.Length
      requires Facts(before, last) && forall u :: u in all && u.value.Stack? ==> u.value.index < last
      ensures Coupled(last)
    {
      forall u | u in all ensures cellOf[u] < |cells.heap| && Holds(u, cells, cellOf[u], last) {
        assert Holds(u, before, cellOf[u], last);
      }
    }

    // The first [limit] slots hold the values of their cells in [c].
    ghost predicate SlotsHold(c: Cells, limit: nat)
      reads `stack, stack
    {
      && WellScoped(c) && limit <= |c.slots| && limit <= stack.Length
      && forall i :: 0 <= i < limit ==> stack[i] == c.heap[c.slots[i]]
    }

    // The upvalues give access to different cells in [c].
    ghost predicate UpvaluesMost(c: Cells, limit: nat)
      reads `all, `cellOf, all
    {
      && WellScoped(c) && limit <= |c.slots|
      && cellOf.Keys == all
      && (forall u :: u in all ==> cellOf[u] < |c.heap|)
      && (forall u, v :: u in all && v in all && u != v ==> cellOf[u] != cellOf[v])
      && (forall u :: u in all ==> Holds(u, c, cellOf[u], limit))
    }

    // So do the upvalues that closures hold, in the order of [c].
    ghost predicate UpvaluesHold(c: Cells, limit: nat)
      reads `upvalues, `all, `cellOf, all
    {
      && UpvaluesMost(c, limit)
      && |upvalues| == |c.captured|
      && (forall k :: 0 <= k < |upvalues| ==> upvalues[k] in all && cellOf[upvalues[k]] == c.captured[k])
    }

    ghost predicate Facts(c: Cells, limit: nat)
      reads `stack, `upvalues, `all, `cellOf, all, stack
    {
      SlotsHold(c, limit) && UpvaluesHold(c, limit)
    }

    lemma Recoupled()
      requires Facts(cells, stackTop) && |cells.slots| == stackTop
      ensures Coupled(stackTop)
    {
    }

    lemma OpenBelow(last: nat)
      requires Linked() && Coupled(last) && forall i :: 0 <= i < |openSlots| ==> openSlots[i] < last
      ensures forall u :: u in all && u.value.Stack? ==> u.value.index < last
      ensures Facts(cells, last)
    {
      forall u | u in all && u.value.Stack? ensures u.value.index < last {
        var i :| 0 <= i < |open| && open[i] == u;
        assert PointsAt(open[i], openSlots[i]);
      }
    }

    method PushValue(v: Value)
      requires Valid() && stackTop < stack.Length
      modifies `stackTop, `cells, stack
      ensures Valid() && cells == After(old(cells), Push(v))
    {
      hide Linked, Coupled, UpvaluesHold;
      ghost var before := cells;
      AllFacts();
      stack[stackTop] := v;
      stackTop := stackTop + 1;
      cells := before.(slots := before.slots + [|before.heap|], heap := before.heap + [v]);
      RaiseTop(before, v);
    }

    lemma AllFacts()
      requires Coupled(stackTop)
      ensures Facts(cells, stackTop) && |cells.slots| == stackTop
    {
    }

    lemma RaiseTop(before: Cells, v: Value)
      requires |before.slots| + 1 == stackTop <= stack.Length && stack[stackTop - 1] == v
      requires Facts(before, stackTop - 1)
      requires cells == before.(slots := before.slots + [|before.heap|], heap := before.heap + [v])
      ensures Coupled(stackTop)
    {
      forall u | u in all ensures cellOf[u] < |cells.heap| && Holds(u, cells, cellOf[u], stackTop) {
        assert Holds(u, before, cellOf[u], stackTop - 1);
      }
    }

    // Discards the top of the stack, which no upvalue captures.
    method DropValue()
      requires Valid() && stackTop > 0 && cells.slots[stackTop - 1] !in cells.captured
      requires forall u :: u in all ==> cellOf[u] in cells.captured
      modifies `stackTop, `cells
      ensures Valid() && cells == After(old(cells), Drop)
    {
      hide Linked, Coupled, UpvaluesHold;
      ghost var before := cells;
      AllFacts();
      NotOpen();
      stackTop := stackTop - 1;
      cells := before.(slots := before.slots[..stackTop]);
      FactsLess(before, stackTop);
      LowerTop(before, stackTop);
    }

    lemma NotOpen()
      requires Facts(cells, stackTop) && |cells.slots| == stackTop > 0 && cells.slots[stackTop - 1] !in cells.captured
      requires forall u :: u in all ==> cellOf[u] in cells.captured
      ensures forall u :: u in all && u.value.Stack? ==> u.value.index < stackTop - 1
    {
      forall u | u in all && u.value.Stack? ensures u.value.index < stackTop - 1 {
        assert Holds(u, cells, cellOf[u], stackTop);
      }
    }

    lemma FactsLess(c: Cells, limit: nat)
      requires Facts(c, limit + 1)
      ensures Facts(c, limit)
    {
      forall u | u in all ensures Holds(u, c, cellOf[u], limit) {
        assert Holds(u, c, cellOf[u], limit + 1);
      }
    }

    method LoadLocal(slot: nat) returns (v: Value)
      requires Valid() && slot < stackTop
      ensures [v] == Reads(cells, Op.LoadLocal(slot))
    {
      v := stack[slot];
    }

    method StoreLocal(slot: nat, v: Value)
      requires Valid() && slot < stackTop
      modifies `cells, stack
      ensures Valid() && cells == After(old(cells), Op.StoreLocal(slot, v))
    {
      hide Linked, Coupled, UpvaluesHold;
      ghost var before, u, cell := cells, openUpvalues, 0;
      AllFacts();
      stack[slot] := v;
      cells := before.(heap := before.heap[before.slots[slot] := v]);
      UpvaluesStored(before, slot, v);
      Recoupled();
    }

    // Storing in the cell of a slot changes what no closed upvalue holds.
    lemma UpvaluesStored(c: Cells, slot: nat, v: Value)
      requires UpvaluesHold(c, |c.slots|) && slot < |c.slots|
      ensures UpvaluesHold(c.(heap := c.heap[c.slots[slot] := v]), |c.slots|)
    {
      forall u | u in all ensures Holds(u, c.(heap := c.heap[c.slots[slot] := v]), cellOf[u], |c.slots|) {
        assert Holds(u, c, cellOf[u], |c.slots|);
      }
    }

    method LoadUpvalue(k: nat) returns (v: Value)
      requires Valid() && k < |upvalues|
      ensures |upvalues| == |cells.captured| && [v] == Reads(cells, Op.LoadUpvalue(k))
    {
      var u := upvalues[k];
      assert Holds(u, cells, cellOf[u], stackTop);
      match u.value
      case Own => v := u.closed;
      case Stack(_, index) =>
        OpenHere(u);
        v := stack[index];
    }

    // An upvalue that is not closed is open, and points into the stack of the fiber.
    lemma OpenHere(u: Upvalue)
      requires Linked() && u in all && u.value.Stack?
      ensures u.value.buffer == stack
    {
      var i :| 0 <= i < |open| && open[i] == u;
      assert PointsAt(open[i], openSlots[i]);
    }

    method StoreUpvalue(k: nat, v: Value)
      requires Valid() && k < |upvalues|
      modifies `cells, stack, all`closed
      ensures |upvalues| == |old(cells).captured| && Valid() && cells == After(old(cells), Op.StoreUpvalue(k, v))
    {
      hide Linked, Coupled, UpvaluesHold;
      AllFacts();
      CapturedAt(k);
      ghost var before := cells;
      var u := upvalues[k];
      match u.value
      case Own =>
        StoreClosed(u, v);
      case Stack(_, index) =>
        OpenHere(u);
        StoreLocal(index, v);
    }

    lemma CapturedAt(k: nat)
      requires UpvaluesHold(cells, stackTop) && |cells.slots| == stackTop && k < |upvalues|
      ensures |upvalues| == |cells.captured| && upvalues[k] in all && cells.captured[k] < |cells.heap|
      ensures upvalues[k] in cellOf && cellOf[upvalues[k]] == cells.captured[k]
      ensures upvalues[k].value.Stack? ==>
                upvalues[k].value.index < stackTop && cells.captured[k] == cells.slots[upvalues[k].value.index]
    {
      assert Holds(upvalues[k], cells, cellOf[upvalues[k]], stackTop);
    }

    method StoreClosed(u: Upvalue, v: Value)
      requires Valid() && u in all && u.value.Own? && u in cellOf && cellOf[u] < |cells.heap|
      modifies `cells, all`closed
      ensures Valid() && cells == old(cells).(heap := old(cells).heap[cellOf[u] := v])
    {
      hide Linked, Coupled;
      AllFacts();
      ghost var before := cells;
      u.closed := v;
      cells := before.(heap := before.heap[cellOf[u] := v]);
      assert forall w :: w in all && w != u ==> Holds(w, before, cellOf[w], stackTop);
      Recoupled();
    }

    // Grows the stack, which moves it, to hold at least [needed] values.
    method EnsureStack(needed: nat)
      requires Valid()
      modifies `stack, all`value
      ensures Valid() && stack.Length >= needed && (stack == old(stack) || fresh(stack))
      ensures stack.Length == if old(stack.Length) >= needed then old(stack.Length) else PowerOf2Ceil(needed)
    {
      hide Linked, Coupled, UpvaluesHold;
      AllFacts();
      if stack.Length >= needed { return; }
      var capacity := PowerOf2Ceil(needed);
      var grown := new Value[capacity](_ => Null);
      forall i | 0 <= i < stack.Length { grown[i] := stack[i]; }
      Relocate(grown);
      Recoupled();
    }

    // Points every open upvalue at the same slot of [grown], and makes that the
    // stack.
    method Relocate(grown: array<Value>)
      requires Linked() && UpvaluesHold(cells, stackTop) && grown != stack
      modifies `stack, all`value
      ensures Linked() && UpvaluesHold(cells, stackTop) && stack == grown
    {
      hide UpvaluesHold, Descending;
      OpenDistinct();
      ghost var moved := stack;
      var upvalue := openUpvalues;
      ghost var i := 0;
      while upvalue != null
        invariant 0 <= i <= |open| == |openSlots| && upvalue == (if i < |open| then open[i] else null)
        invariant UpvaluesHold(cells, stackTop) && stack == moved
        invariant forall j :: 0 <= j < |open| ==> open[j].value == Stack(if j < i then grown else moved, openSlots[j])
        invariant forall u :: u in all && u !in open ==> u.value.Own?
        decreases |open| - i
      {
        assert upvalue.next == Successor(open, i);
        MoveUpvalue(upvalue, grown);
        upvalue := upvalue.next;
        i := i + 1;
      }
      stack := grown;
    }

    method MoveUpvalue(u: Upvalue, grown: array<Value>)
      requires UpvaluesHold(cells, stackTop) && u in all && u.value.Stack?
      modifies u`value
      ensures UpvaluesHold(cells, stackTop) && u.value == Stack(grown, old(u.value.index))
    {
      assert Holds(u, cells, cellOf[u], stackTop);
      assert forall v :: v in all && v != u ==> Holds(v, cells, cellOf[v], stackTop);
      u.value := Stack(grown, u.value.index);
    }

    // Every upvalue is held by a closure.
    ghost predicate AllHeld()
      reads `all, `cellOf, `cells
    {
      forall u :: u in all ==> u in cellOf && cellOf[u] in cells.captured
    }

    // Closes over the variable in [slot].
    method Capture(slot: nat)
      requires Valid() && AllHeld() && slot < stackTop
      modifies `openUpvalues, `open, `openSlots, `all, `cellOf, `upvalues, `cells, all`next
      ensures Valid() && AllHeld() && cells == After(old(cells), Op.Capture(slot)) && fresh(all - old(all))
      // A variable has one upvalue, however often it is captured.
      ensures |upvalues| == |cells.captured| == |old(cells).captured| + 1 && slot < |cells.slots|
      ensures forall k :: 0 <= k < |upvalues| - 1 && cells.captured[k] == cells.slots[slot] ==>
                upvalues[k] == upvalues[|upvalues| - 1]
    {
      hide Linked, Coupled, UpvaluesHold, UpvaluesMost, Holds, SlotsHold, WellScoped, Chained;
      AllFacts();
      HeldCells();
      var u := CaptureUpvalue(slot);
      Keep(u, slot);
    }

    // Gives the closure the upvalue of [slot].
    method Keep(u: Upvalue, slot: nat)
      requires Valid() && slot < stackTop && u in all && cellOf[u] == cells.slots[slot]
      requires forall v :: v in all && v != u ==> cellOf[v] in cells.captured
      modifies `upvalues, `cells
      ensures Valid() && AllHeld() && cells == After(old(cells), Op.Capture(slot)) && upvalues == old(upvalues) + [u]
    {
      hide Linked, Coupled, UpvaluesHold, UpvaluesMost, Holds;
      AllFacts();
      HeldCells();
      ghost var before := cells;
      upvalues := upvalues + [u];
      cells := before.(captured := before.captured + [before.slots[slot]]);
      MoreHeld(before, u, slot);
      Recoupled();
    }

    lemma HeldCells()
      requires UpvaluesHold(cells, stackTop)
      ensures |upvalues| == |cells.captured| && UpvaluesMost(cells, stackTop)
      ensures forall k :: 0 <= k < |upvalues| ==>
                upvalues[k] in all && upvalues[k] in cellOf && cellOf[upvalues[k]] == cells.captured[k]
    {
    }

    lemma MoreHeld(before: Cells, u: Upvalue, slot: nat)
      requires slot < stackTop == |before.slots| && cells == before.(captured := before.captured + [before.slots[slot]])
      requires UpvaluesMost(before, stackTop) && |upvalues| == |before.captured| + 1 && upvalues[|before.captured|] == u
      requires forall k :: 0 <= k < |before.captured| ==>
                 upvalues[k] in all && upvalues[k] in cellOf && cellOf[upvalues[k]] == before.captured[k]
      requires u in all && u in cellOf && cellOf[u] == before.slots[slot]
      ensures UpvaluesHold(cells, stackTop)
    {
      forall v | v in all ensures Holds(v, cells, cellOf[v], stackTop) {
        assert Holds(v, before, cellOf[v], stackTop);
      }
    }

    lemma Sizes()
      requires Coupled(stackTop)
      ensures WellScoped(cells) && |cells.slots| == stackTop && |upvalues| == |cells.captured|
    {
    }

    // Runs any code on a fiber: what it reads is what it would read if every
    // variable were a heap cell.
    method Run(ops: seq<Op>) returns (read: seq<Value>)
      requires Valid() && AllHeld() && WellScoped(cells) && LegalRun(cells, ops)
      modifies this, all, stack
      ensures read == ReadsOf(old(cells), ops)
    {
      hide Linked, Coupled, After, Reads, Legal, WellScoped;
      Sizes();
      read := [];
      ghost var start := cells;
      var n := 0;
      while n < |ops|
        invariant n <= |ops| && Valid() && AllHeld() && WellScoped(cells) && LegalRun(cells, ops[n..])
        invariant fresh(all - old(all)) && (stack == old(stack) || fresh(stack))
        invariant ReadsOf(start, ops) == read + ReadsOf(cells, ops[n..])
      {
        RunStep(cells, ops[n..]);
        assert ops[n..][1..] == ops[n + 1..];
        var v := Execute(ops[n]);
        read := read + v;
        n := n + 1;
      }
      assert ops[n..] == [];
    }

    method Execute(op: Op) returns (read: seq<Value>)
      requires Valid() && AllHeld() && WellScoped(cells) && Legal(cells, op)
      modifies this, all, stack
      ensures Valid() && AllHeld() && cells == After(old(cells), op) && read == Reads(old(cells), op)
      ensures fresh(all - old(all)) && (stack == old(stack) || fresh(stack))
    {
      hide Linked, Coupled, WellScoped, Holds;
      Sizes();
      read := [];
      match op
      case Push(v) =>
        EnsureStack(stackTop + 1);
        PushValue(v);
      case Drop => DropValue();
      case LoadLocal(slot) => var v := LoadLocal(slot); read := [v];
      case StoreLocal(slot, v) => StoreLocal(slot, v);
      case Capture(slot) => Capture(slot);
      case LoadUpvalue(k) => var v := LoadUpvalue(k); read := [v];
      case StoreUpvalue(k, v) => StoreUpvalue(k, v);
      case CloseFrom(slot) => CloseFrom(slot);
      case Reserve(needed) => EnsureStack(needed);
    }
  }

  // On a new fiber, every load reads what was stored last in its variable.
  method RunNew(capacity: nat, ops: seq<Op>) returns (read: seq<Value>)
    requires LegalRun(Cells([], [], []), ops)
    ensures read == Loaded(ops)
  {
    hide LegalRun, ReadsOf, Loaded;
    ReadsLast(ops);
    var fiber := new Fiber(capacity);
    read := fiber.Run(ops);
  }

  lemma RunStep(c: Cells, ops: seq<Op>)
    requires WellScoped(c) && LegalRun(c, ops) && ops != []
    ensures Legal(c, ops[0]) && LegalRun(After(c, ops[0]), ops[1..])
    ensures ReadsOf(c, ops) == Reads(c, ops[0]) + ReadsOf(After(c, ops[0]), ops[1..])
  {
    hide Legal, After, Reads;
  }
}
