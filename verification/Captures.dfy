/** Which variables are closed when they leave the stack. The compiler marks a local
    when it compiles a function that closes over it, and discards a marked local by
    closing its upvalue and any other by a plain pop. It decides that in one pass, so
    code that comes before the function in the text, and a "break" or "continue" in
    it, pops the same variable. Still no variable that has been captured is popped, as
    long as no function is called with more arguments than it has parameters. */
module Captures {
  import opened Upvalues
  import Closures
  import Syntax

  type Local = Closures.Local

  // What matters of the source: the variables, the functions that close over them,
  // calls and control flow.
  datatype Expr =
    | Constant
    | Name(name: string)
    | Assign(name: string, value: Expr)
    // A function. Its body uses these variables of the functions around it.
    | Function(free: seq<string>)
    | Call(receiver: Expr, args: Args)
    | Logical(left: Expr, right: Expr)

  datatype Args = NoArgs | Arg(first: Expr, rest: Args)

  datatype Stmt =
    | Var(name: string, value: Expr)
    | Evaluate(value: Expr)
    | Give(value: Expr)
    | Seq(first: Stmt, second: Stmt)
    | Block(body: Stmt)
    | If(condition: Expr, yes: Stmt, no: Stmt)
    | While(condition: Expr, body: Stmt)
    | Break
    | Continue

  // The instructions that touch the stack, under the control flow around them.
  datatype Code =
    | Empty
    | Then(first: Code, second: Code)
    | PushValue
    | Pop
    | CloseUpvalue
    | ReadLocal(slot: nat)
    | WriteLocal(slot: nat)
    | ReadOuter
    | WriteOuter
    // A closure over these locals.
    | Closure(slots: seq<nat>)
    | CallMethod(arity: nat)
    | Return
    | Branch(yes: Code, no: Code)
    | Shortcut(rest: Code)
    | Loop(test: Code, body: Code)
    | Leave
    | Again

  // ----- Compiling -----

  // The last local with the name, or -1.
  function Resolve(l: seq<Local>, name: string): (r: int)
    ensures -1 <= r < |l|
  {
    if l == [] then -1 else if l[|l| - 1].name == name then |l| - 1 else Resolve(l[..|l| - 1], name)
  }

  // The locals among [free], and those locals marked.
  function Slots(l: seq<Local>, free: seq<string>): (r: seq<nat>)
    ensures forall j :: 0 <= j < |r| ==> r[j] < |l|
  {
    if free == [] then []
    else
      var i := Resolve(l, free[0]);
      (if i < 0 then [] else [i]) + Slots(l, free[1..])
  }

  function Mark(l: seq<Local>, slots: seq<nat>): (r: seq<Local>)
    requires forall j :: 0 <= j < |slots| ==> slots[j] < |l|
    ensures Marks(l, r) && |r| == |l| && forall j :: 0 <= j < |slots| ==> r[slots[j]].isUpvalue
    decreases |slots|
  {
    if slots == [] then l else Mark(l[slots[0] := l[slots[0]].(isUpvalue := true)], slots[1..])
  }

  // Every local of [l] is one of [m], and is marked there if it is here.
  predicate Marks(l: seq<Local>, m: seq<Local>) {
    |l| <= |m| && forall i :: 0 <= i < |l| && l[i].isUpvalue ==> m[i].isUpvalue
  }

  // Compiles an expression: the code, and the locals with those it closes over marked.
  function GenExpr(l: seq<Local>, e: Expr): (r: (Code, seq<Local>))
    ensures |r.1| == |l| && Marks(l, r.1)
    decreases e
  {
    match e
    case Constant => (PushValue, l)
    case Name(x) => (var i := Resolve(l, x); if i >= 0 then ReadLocal(i) else ReadOuter, l)
    case Assign(x, value) =>
      var i, v := Resolve(l, x), GenExpr(l, value);
      (Then(v.0, if i >= 0 then WriteLocal(i) else WriteOuter), v.1)
    case Function(free) => (Closure(Slots(l, free)), Mark(l, Slots(l, free)))
    case Call(receiver, args) =>
      var f := GenExpr(l, receiver);
      var a := GenArgs(f.1, args);
      (Then(f.0, Then(a.0, CallMethod(Count(args)))), a.1)
    case Logical(left, right) =>
      var a := GenExpr(l, left);
      var b := GenExpr(a.1, right);
      (Then(a.0, Shortcut(b.0)), b.1)
  }

  function GenArgs(l: seq<Local>, args: Args): (r: (Code, seq<Local>))
    ensures |r.1| == |l| && Marks(l, r.1)
    decreases args
  {
    match args
    case NoArgs => (Empty, l)
    case Arg(e, rest) =>
      var a := GenExpr(l, e);
      var b := GenArgs(a.1, rest);
      (Then(a.0, b.0), b.1)
  }

  function Count(args: Args): nat {
    if args.NoArgs? then 0 else 1 + Count(args.rest)
  }

  // Discards the locals from [from] on, the last first.
  function Discard(l: seq<Local>, from: nat): Code {
    if |l| <= from then Empty
    else Then(if l[|l| - 1].isUpvalue then CloseUpvalue else Pop, Discard(l[..|l| - 1], from))
  }

  // Compiles a statement in a loop that had [loop] locals where it started.
  function GenStmt(l: seq<Local>, loop: nat, s: Stmt): (r: (Code, seq<Local>))
    ensures Marks(l, r.1)
    decreases s, 0
  {
    match s
    case Var(x, e) => var v := GenExpr(l, e); (v.0, v.1 + [Closures.Local(x, false)])
    case Evaluate(e) => var v := GenExpr(l, e); (Then(v.0, Pop), v.1)
    case Give(e) => var v := GenExpr(l, e); (Then(v.0, Return), v.1)
    case Seq(a, b) =>
      var c := GenStmt(l, loop, a);
      var d := GenStmt(c.1, loop, b);
      (Then(c.0, d.0), d.1)
    case Block(body) => GenBlock(l, loop, body)
    case If(e, a, b) =>
      var v := GenExpr(l, e);
      var c := GenBlock(v.1, loop, a);
      var d := GenBlock(c.1, loop, b);
      (Then(v.0, Branch(c.0, d.0)), d.1)
    case While(e, body) =>
      var v := GenExpr(l, e);
      var b := GenBlock(v.1, |l|, body);
      (Loop(v.0, b.0), b.1)
    case Break => (Then(Discard(l, loop), Leave), l)
    case Continue => (Then(Discard(l, loop), Again), l)
  }

  // The same in a scope of its own. A branch or a loop body declares nothing outside
  // a block, so for those this changes nothing.
  function GenBlock(l: seq<Local>, loop: nat, s: Stmt): (r: (Code, seq<Local>))
    ensures |r.1| == |l| && Marks(l, r.1)
    decreases s, 1
  {
    var b := GenStmt(l, loop, s);
    (Then(b.0, Discard(b.1, |l|)), b.1[..|l|])
  }

  // A function body, with the function itself or the receiver in slot 0.
  datatype Procedure = Procedure(params: seq<string>, body: Stmt)

  function Params(names: seq<string>): (r: seq<Local>)
    ensures |r| == |names| + 1 && forall i :: 0 <= i < |r| ==> !r[i].isUpvalue
  {
    if names == [] then [Closures.Local("", false)]
    else Params(names[..|names| - 1]) + [Closures.Local(names[|names| - 1], false)]
  }

  function GenProcedure(p: Procedure): Code {
    Then(GenStmt(Params(p.params), 0, p.body).0, Then(PushValue, Return))
  }

  // ----- Running -----

  // What the code does not decide: the values of calls and constants, which branch is
  // taken, and what is called. A strict run ends at a call that passes a function more
  // arguments than it has parameters.
  datatype Oracle = Oracle(choice: nat -> nat, value: nat -> Syntax.Value, strict: bool)

  // What a run has done to its variables since [start], whether that was legal, and
  // whether every call passed as many arguments as there are parameters.
  datatype Run = Run(start: Cells, cells: Cells, ops: seq<Op>, asked: nat, legal: bool, exact: bool)

  datatype Outcome = Done | Left | Repeated | Returned | Stopped

  predicate Good(r: Run) {
    && WellScoped(r.start) && LegalRun(r.start, r.ops) && WellScoped(r.cells) && Final(r.start, r.ops) == r.cells
  }

  function Do(r: Run, op: Op): (q: Run)
    requires Good(r)
    ensures Good(q) && q.start == r.start && q.exact == r.exact && (q.legal ==> r.legal)
  {
    if Legal(r.cells, op) then
      RunMore(r.start, r.ops, op);
      Run(r.start, After(r.cells, op), r.ops + [op], r.asked, r.legal, r.exact)
    else r.(legal := false)
  }

  function DropAll(r: Run, n: nat): (q: Run)
    requires Good(r)
    ensures Good(q) && q.start == r.start && q.exact == r.exact && (q.legal ==> r.legal)
    decreases n
  {
    if n == 0 then r else DropAll(Do(r, Op.Drop), n - 1)
  }

  function CaptureAll(r: Run, base: nat, slots: seq<nat>): (q: Run)
    requires Good(r)
    ensures Good(q) && q.start == r.start && q.exact == r.exact && (q.legal ==> r.legal)
    decreases |slots|
  {
    if slots == [] then r else CaptureAll(Do(r, Op.Capture(base + slots[0])), base, slots[1..])
  }

  function Ask(r: Run): Run {
    r.(asked := r.asked + 1)
  }

  // The value on top of the stack.
  function Top(r: Run): Syntax.Value
    requires Good(r)
  {
    if r.cells.slots == [] then Syntax.Null else r.cells.heap[r.cells.slots[|r.cells.slots| - 1]]
  }

  // The value of a variable of this function.
  function ValueIn(r: Run, i: nat): Syntax.Value
    requires Good(r)
  {
    if i < |r.cells.slots| then r.cells.heap[r.cells.slots[i]] else Syntax.Null
  }

  // Runs [c] in a frame whose first slot is [base].
  function Exec(fns: seq<Procedure>, o: Oracle, base: nat, c: Code, r: Run, fuel: nat): (q: (Run, Outcome))
    requires Good(r)
    ensures Good(q.0) && q.0.start == r.start && (q.0.exact ==> r.exact)
    decreases fuel, 1, c
  {
    match c
    case Empty => (r, Done)
    case Then(a, b) => var q := Exec(fns, o, base, a, r, fuel);
        if q.1 == Done then Exec(fns, o, base, b, q.0, fuel) else q
    case PushValue => (Do(Ask(r), Op.Push(o.value(r.asked))), Done)
    case Pop => (Do(r, Op.Drop), Done)
    case CloseUpvalue => (Do(r, Op.CloseFrom(if r.cells.slots == [] then 0 else |r.cells.slots| - 1)), Done)
    case ReadLocal(i) => (Do(Do(r, Op.LoadLocal(base + i)), Op.Push(ValueIn(r, base + i))), Done)
    case WriteLocal(i) => (Do(r, Op.StoreLocal(base + i, Top(r))), Done)
    // An upvalue of the running function is one that some closure holds. A name can
    // also be one of a module variable or of a method.
    case ReadOuter =>
      var k := o.choice(r.asked);
      if k < |r.cells.captured| then
        (Do(Do(Ask(r), Op.LoadUpvalue(k)), Op.Push(r.cells.heap[r.cells.captured[k]])), Done)
      else (Do(Ask(r), Op.Push(o.value(r.asked))), Done)
    case WriteOuter =>
      var k := o.choice(r.asked);
      (if k < |r.cells.captured| then Do(Ask(r), Op.StoreUpvalue(k, Top(r))) else Ask(r), Done)
    case Closure(slots) => (CaptureAll(Do(Ask(r), Op.Push(o.value(r.asked))), base, slots), Done)
    case CallMethod(n) => ExecCall(fns, o, n, r, fuel)
    // The result takes the place of the frame.
    case Return => (Do(Do(Do(r, Op.Drop), Op.CloseFrom(base)), Op.Push(Top(r))), Returned)
    case Branch(a, b) =>
      Exec(fns, o, base, if o.choice(r.asked) == 0 then a else b, Do(Ask(r), Op.Drop), fuel)
    case Shortcut(rest) =>
      if o.choice(r.asked) == 0 then (Ask(r), Done) else Exec(fns, o, base, rest, Do(Ask(r), Op.Drop), fuel)
    case Loop(test, body) =>
      var q := Exec(fns, o, base, test, r, fuel);
      if q.1 != Done then q
      else
        var r1 := Do(Ask(q.0), Op.Drop);
        if o.choice(q.0.asked) == 0 then (r1, Done)
        else
          var b := Exec(fns, o, base, body, r1, fuel);
          if b.1 == Left then (b.0, Done)
          else if b.1 != Done && b.1 != Repeated then b
          else if fuel == 0 then (b.0, Stopped)
          else Exec(fns, o, base, c, b.0, fuel - 1)
    case Leave => (r, Left)
    case Again => (r, Repeated)
  }

  // A call ends the run with an error, or calls a primitive, or one of the functions. A
  // function can be passed more arguments than it has parameters. They stay on the
  // stack.
  function ExecCall(fns: seq<Procedure>, o: Oracle, n: nat, r: Run, fuel: nat): (q: (Run, Outcome))
    requires Good(r)
    ensures Good(q.0) && q.0.start == r.start && (q.0.exact ==> r.exact)
    decreases fuel, 0
  {
    var j := o.choice(r.asked);
    if j == 1 then (Do(DropAll(Ask(r), n + 1), Op.Push(o.value(r.asked))), Done)
    else if 2 <= j < |fns| + 2 && Passes(o, fns[j - 2], n) && n < |r.cells.slots| && fuel > 0 then
      var called := Ask(r).(exact := r.exact && |fns[j - 2].params| == n);
      var q := Exec(fns, o, |r.cells.slots| - n - 1, GenProcedure(fns[j - 2]), called, fuel - 1);
      (q.0, if q.1 == Returned then Done else Stopped)
    else (Ask(r), Stopped)
  }

  predicate Passes(o: Oracle, f: Procedure, n: nat) {
    |f.params| == n || (!o.strict && |f.params| < n)
  }

  // ----- No captured variable is popped -----

  predicate Captured(r: Run, i: nat)
    requires i < |r.cells.slots|
  {
    r.cells.slots[i] in r.cells.captured
  }

  // The frame from [base] on holds the locals [l] and [t] temporaries. Of those from
  // [lo] on, only marked locals are captured.
  predicate Fits(r: Run, base: nat, lo: nat, l: seq<Local>, t: nat) {
    && Good(r) && r.legal && |r.cells.slots| == base + |l| + t && lo <= |l|
    && forall i :: base + lo <= i < |r.cells.slots| && Captured(r, i) ==> i < base + |l| && l[i - base].isUpvalue
  }

  // The first [n] slots have kept their variables. Of those, only marked locals have
  // been captured since.
  predicate Kept(r: Run, q: Run, base: nat, n: nat, l: seq<Local>) {
    && n <= |r.cells.slots| && n <= |q.cells.slots|
    && forall i :: 0 <= i < n ==>
         && q.cells.slots[i] == r.cells.slots[i]
         && (Captured(q, i) ==> Captured(r, i) || (base <= i < base + |l| && l[i - base].isUpvalue))
  }

  lemma KeptTrans(r: Run, q: Run, s: Run, base: nat, n: nat, m: nat, l: seq<Local>, k: seq<Local>)
    requires Kept(r, q, base, n, l) && Kept(q, s, base, m, k) && m <= n && Marks(l, k)
    ensures Kept(r, s, base, m, k)
  {
    forall i | 0 <= i < m
      ensures s.cells.slots[i] == r.cells.slots[i]
      ensures Captured(s, i) ==> Captured(r, i) || (base <= i < base + |k| && k[i - base].isUpvalue)
    {
      assert Captured(q, i) ==> Captured(r, i) || (base <= i < base + |l| && l[i - base].isUpvalue);
    }
  }

  lemma Pushed(r: Run, base: nat, lo: nat, l: seq<Local>, t: nat, v: Syntax.Value)
    requires Fits(r, base, lo, l, t)
    ensures var q := Do(r, Op.Push(v)); Fits(q, base, lo, l, t + 1) && Kept(r, q, base, |r.cells.slots|, l)
  {
    hide LegalRun, Final;
    var q := Do(r, Op.Push(v));
    forall i | base + lo <= i < |q.cells.slots| && Captured(q, i) ensures i < base + |l| && l[i - base].isUpvalue {
      assert i < |r.cells.slots| ==> Captured(r, i);
    }
  }

  lemma Dropped(r: Run, base: nat, lo: nat, l: seq<Local>, t: nat)
    requires Fits(r, base, lo, l, t) && t > 0
    ensures var q := Do(r, Op.Drop); Fits(q, base, lo, l, t - 1) && Kept(r, q, base, |r.cells.slots| - 1, l)
  {
    hide LegalRun, Final;
    var q := Do(r, Op.Drop);
    assert !Captured(r, |r.cells.slots| - 1);
    forall i | base + lo <= i < |q.cells.slots| && Captured(q, i) ensures i < base + |l| && l[i - base].isUpvalue {
      assert Captured(r, i);
    }
  }

  // Reading and writing variables.
  lemma Accessed(r: Run, base: nat, lo: nat, l: seq<Local>, t: nat, op: Op)
    requires Fits(r, base, lo, l, t) && Legal(r.cells, op)
    requires op.LoadLocal? || op.StoreLocal? || op.LoadUpvalue? || op.StoreUpvalue?
    ensures var q := Do(r, op); Fits(q, base, lo, l, t) && Kept(r, q, base, |r.cells.slots|, l)
  {
    hide LegalRun, Final;
    var q := Do(r, op);
    forall i | base + lo <= i < |q.cells.slots| && Captured(q, i) ensures i < base + |l| && l[i - base].isUpvalue {
      assert Captured(r, i);
    }
  }

  lemma CapturedOne(r: Run, base: nat, lo: nat, l: seq<Local>, t: nat, k: nat)
    requires Fits(r, base, lo, l, t) && k < |l| && l[k].isUpvalue
    ensures var q := Do(r, Op.Capture(base + k)); Fits(q, base, lo, l, t) && Kept(r, q, base, |r.cells.slots|, l)
  {
    hide LegalRun, Final;
    var q := Do(r, Op.Capture(base + k));
    forall i | 0 <= i < |q.cells.slots| && Captured(q, i) ensures Captured(r, i) || i == base + k {
    }
  }

  lemma {:induction false} CapturedAll(r: Run, base: nat, lo: nat, l: seq<Local>, t: nat, slots: seq<nat>)
    requires Fits(r, base, lo, l, t) && forall j :: 0 <= j < |slots| ==> slots[j] < |l| && l[slots[j]].isUpvalue
    ensures var q := CaptureAll(r, base, slots); Fits(q, base, lo, l, t) && Kept(r, q, base, |r.cells.slots|, l)
    decreases |slots|
  {
    hide Good, Do;
    if slots != [] {
      var q := Do(r, Op.Capture(base + slots[0]));
      CapturedOne(r, base, lo, l, t, slots[0]);
      CapturedAll(q, base, lo, l, t, slots[1..]);
      KeptTrans(r, q, CaptureAll(q, base, slots[1..]), base, |r.cells.slots|, |r.cells.slots|, l, l);
    }
  }

  lemma {:induction false} DroppedAll(r: Run, base: nat, lo: nat, l: seq<Local>, t: nat, n: nat)
    requires Fits(r, base, lo, l, t) && n <= t
    ensures var q := DropAll(r, n); Fits(q, base, lo, l, t - n) && Kept(r, q, base, |r.cells.slots| - n, l)
    decreases n
  {
    hide Good, Do;
    if n > 0 {
      var q := Do(r, Op.Drop);
      Dropped(r, base, lo, l, t);
      DroppedAll(q, base, lo, l, t - 1, n - 1);
      KeptTrans(r, q, DropAll(q, n - 1), base, |r.cells.slots| - 1, |r.cells.slots| - n, l, l);
    }
  }

  // A local goes out of scope.
  lemma DiscardedOne(fns: seq<Procedure>, o: Oracle, base: nat, lo: nat, l: seq<Local>, r: Run, fuel: nat)
    requires Fits(r, base, lo, l, 0) && lo < |l|
    ensures var n := |l| - 1;
            var q := Exec(fns, o, base, if l[n].isUpvalue then CloseUpvalue else Pop, r, fuel);
            q.1 == Done && Fits(q.0, base, lo, l[..n], 0) && Kept(r, q.0, base, base + n, l[..n])
  {
    hide LegalRun, Final;
    var n := |l| - 1;
    var q := Exec(fns, o, base, if l[n].isUpvalue then CloseUpvalue else Pop, r, fuel);
    assert !l[n].isUpvalue ==> !Captured(r, base + n);
    assert q.0.cells == r.cells.(slots := r.cells.slots[..base + n]);
    forall i | 0 <= i < base + n && Captured(q.0, i) ensures Captured(r, i) {
    }
  }

  lemma {:induction false} Discarded(
      fns: seq<Procedure>, o: Oracle, base: nat, lo: nat, l: seq<Local>, from: nat, r: Run, fuel: nat)
    requires Fits(r, base, lo, l, 0) && lo <= from <= |l|
    ensures var q := Exec(fns, o, base, Discard(l, from), r, fuel);
            q.1 == Done && Fits(q.0, base, lo, l[..from], 0) && Kept(r, q.0, base, base + from, l[..from])
    decreases |l|
  {
    hide Good, Do;
    if |l| == from {
      assert l[..from] == l;
    } else {
      var n := |l| - 1;
      DiscardedOne(fns, o, base, lo, l, r, fuel);
      var q := Exec(fns, o, base, if l[n].isUpvalue then CloseUpvalue else Pop, r, fuel).0;
      Discarded(fns, o, base, lo, l[..n], from, q, fuel);
      assert l[..n][..from] == l[..from];
      var s := Exec(fns, o, base, Discard(l[..n], from), q, fuel).0;
      KeptCut(r, q, base, base + n, base + from, l[..n], from);
      KeptTrans(r, q, s, base, base + from, base + from, l[..n][..from], l[..from]);
    }
  }

  lemma KeptCut(r: Run, q: Run, base: nat, n: nat, m: nat, l: seq<Local>, k: nat)
    requires Kept(r, q, base, n, l) && m <= n && m <= base + k && k <= |l|
    ensures Kept(r, q, base, m, l[..k])
  {
  }

  lemma ExecThen(fns: seq<Procedure>, o: Oracle, base: nat, a: Code, b: Code, r: Run, fuel: nat)
    requires Good(r)
    ensures var q := Exec(fns, o, base, a, r, fuel);
            Exec(fns, o, base, Then(a, b), r, fuel)
            == if q.1 == Done then Exec(fns, o, base, b, q.0, fuel) else q
  {
    hide Good;
  }

  lemma ExecCalls(fns: seq<Procedure>, o: Oracle, base: nat, n: nat, r: Run, fuel: nat)
    requires Good(r)
    ensures Exec(fns, o, base, CallMethod(n), r, fuel) == ExecCall(fns, o, n, r, fuel)
  {
    hide Good, ExecCall;
  }

  lemma ExecShortcut(fns: seq<Procedure>, o: Oracle, base: nat, c: Code, r: Run, fuel: nat)
    requires Good(r) && Good(Ask(r))
    ensures Exec(fns, o, base, Shortcut(c), r, fuel)
            == if o.choice(r.asked) == 0 then (Ask(r), Done) else Exec(fns, o, base, c, Do(Ask(r), Op.Drop), fuel)
  {
    hide Good, Do;
  }

  lemma ExecBranch(fns: seq<Procedure>, o: Oracle, base: nat, yes: Code, no: Code, r: Run, fuel: nat)
    requires Good(r) && Good(Ask(r))
    ensures Exec(fns, o, base, Branch(yes, no), r, fuel)
            == Exec(fns, o, base, if o.choice(r.asked) == 0 then yes else no, Do(Ask(r), Op.Drop), fuel)
  {
    hide Good, Do;
  }

  // ----- Expressions -----

  // Code stopped, or left [k] values above the [t] temporaries there were.
  predicate Leaves(r: Run, q: (Run, Outcome), base: nat, lo: nat, l: seq<Local>, t: nat, k: nat) {
    if q.1 == Stopped then q.0.legal
    else q.1 == Done && Fits(q.0, base, lo, l, t + k) && Kept(r, q.0, base, base + |l| + t, l)
  }

  lemma FitsMore(r: Run, base: nat, lo: nat, l: seq<Local>, m: seq<Local>, t: nat)
    requires Fits(r, base, lo, l, t) && Marks(l, m) && |l| == |m|
    ensures Fits(r, base, lo, m, t)
  {
    hide Good, Captured;
  }

  lemma FitsGood(r: Run, base: nat, lo: nat, l: seq<Local>, t: nat)
    requires Fits(r, base, lo, l, t)
    ensures Good(r) && Good(Ask(r)) && |r.cells.slots| == base + |l| + t && lo <= |l|
  {
  }

  lemma KeptMore(r: Run, q: Run, base: nat, n: nat, m: nat, l: seq<Local>, k: seq<Local>)
    requires Kept(r, q, base, n, l) && Marks(l, k) && m <= n
    ensures Kept(r, q, base, m, k)
  {
    hide Captured;
  }

  lemma Asked(r: Run, base: nat, lo: nat, l: seq<Local>, t: nat)
    requires Fits(r, base, lo, l, t)
    ensures Fits(Ask(r), base, lo, l, t) && Kept(r, Ask(r), base, |r.cells.slots|, l)
  {
    forall i | 0 <= i < |r.cells.slots| ensures Captured(Ask(r), i) == Captured(r, i) {
    }
  }

  // One piece of code after another.
  lemma LeavesMore(
      r: Run, q: Run, s: (Run, Outcome), base: nat, lo: nat, l: seq<Local>, m: seq<Local>, t: nat, j: nat, k: nat)
    requires Leaves(r, (q, Done), base, lo, l, t, j) && Leaves(q, s, base, lo, m, t + j, k) && Marks(l, m)
             && |l| == |m|
    ensures Leaves(r, s, base, lo, m, t, j + k)
  {
    hide Fits;
    if s.1 == Done {
      KeptMore(q, s.0, base, base + |m| + t + j, base + |m| + t, m, m);
      KeptTrans(r, q, s.0, base, base + |l| + t, base + |m| + t, l, m);
    }
  }

  // Pushing a value after other operations that keep the stack.
  lemma PushedAfter(r: Run, q: Run, base: nat, lo: nat, l: seq<Local>, t: nat, v: Syntax.Value)
    requires Fits(r, base, lo, l, t) && Fits(q, base, lo, l, t) && Kept(r, q, base, |r.cells.slots|, l)
    ensures Leaves(r, (Do(q, Op.Push(v)), Done), base, lo, l, t, 1)
  {
    hide LegalRun, Final, Captured, Do, WellScoped;
    Pushed(q, base, lo, l, t, v);
    KeptTrans(r, q, Do(q, Op.Push(v)), base, |r.cells.slots|, |r.cells.slots|, l, l);
  }

  lemma AccessedAfterAsking(r: Run, base: nat, lo: nat, l: seq<Local>, t: nat, op: Op)
    requires Fits(r, base, lo, l, t) && Legal(r.cells, op)
    requires op.LoadLocal? || op.StoreLocal? || op.LoadUpvalue? || op.StoreUpvalue?
    ensures Fits(Ask(r), base, lo, l, t)
            && var q := Do(Ask(r), op); Fits(q, base, lo, l, t) && Kept(r, q, base, |r.cells.slots|, l)
  {
    hide LegalRun, Final, Captured, Do, WellScoped;
    Asked(r, base, lo, l, t);
    Accessed(Ask(r), base, lo, l, t, op);
    KeptTrans(r, Ask(r), Do(Ask(r), op), base, |r.cells.slots|, |r.cells.slots|, l, l);
  }

  lemma ConstantRuns(fns: seq<Procedure>, o: Oracle, base: nat, lo: nat, l: seq<Local>, t: nat, r: Run, fuel: nat)
    requires Fits(r, base, lo, l, t)
    ensures Leaves(r, Exec(fns, o, base, PushValue, r, fuel), base, lo, l, t, 1)
  {
    hide Good, Captured, Do, Kept;
    Asked(r, base, lo, l, t);
    PushedAfter(r, Ask(r), base, lo, l, t, o.value(r.asked));
  }

  lemma NameRuns(
      fns: seq<Procedure>, o: Oracle, base: nat, lo: nat, l: seq<Local>, t: nat, x: string, r: Run, fuel: nat)
    requires Fits(r, base, lo, l, t)
    ensures Leaves(r, Exec(fns, o, base, GenExpr(l, Name(x)).0, r, fuel), base, lo, l, t, 1)
  {
    hide Good, Captured, Do, Kept, Leaves;
    var i, k := Resolve(l, x), o.choice(r.asked);
    if i >= 0 {
      Accessed(r, base, lo, l, t, Op.LoadLocal(base + i));
      PushedAfter(r, Do(r, Op.LoadLocal(base + i)), base, lo, l, t, ValueIn(r, base + i));
    } else if k < |r.cells.captured| {
      AccessedAfterAsking(r, base, lo, l, t, Op.LoadUpvalue(k));
      InHeap(r, k);
      PushedAfter(r, Do(Ask(r), Op.LoadUpvalue(k)), base, lo, l, t, r.cells.heap[r.cells.captured[k]]);
    } else {
      Asked(r, base, lo, l, t);
      PushedAfter(r, Ask(r), base, lo, l, t, o.value(r.asked));
    }
  }

  lemma InHeap(r: Run, k: nat)
    requires Good(r) && k < |r.cells.captured|
    ensures r.cells.captured[k] < |r.cells.heap|
  {
  }

  // The store at the end of an assignment.
  lemma WriteRuns(
      fns: seq<Procedure>, o: Oracle, base: nat, lo: nat, l: seq<Local>, t: nat, i: int, r: Run, fuel: nat)
    requires Fits(r, base, lo, l, t) && -1 <= i < |l|
    ensures var q := Exec(fns, o, base, if i >= 0 then WriteLocal(i) else WriteOuter, r, fuel);
            Leaves(r, q, base, lo, l, t, 0)
  {
    hide Good, Captured, Do, Kept;
    var k := o.choice(r.asked);
    if i >= 0 {
      Accessed(r, base, lo, l, t, Op.StoreLocal(base + i, Top(r)));
    } else if k < |r.cells.captured| {
      AccessedAfterAsking(r, base, lo, l, t, Op.StoreUpvalue(k, Top(r)));
    } else {
      Asked(r, base, lo, l, t);
    }
  }

  lemma ClosureRuns(
      fns: seq<Procedure>, o: Oracle, base: nat, lo: nat, l: seq<Local>, t: nat, slots: seq<nat>, r: Run, fuel: nat)
    requires Fits(r, base, lo, l, t) && forall j :: 0 <= j < |slots| ==> slots[j] < |l|
    ensures Leaves(r, Exec(fns, o, base, Closure(slots), r, fuel), base, lo, Mark(l, slots), t, 1)
  {
    hide Good, Captured, Do, Kept, Fits, Leaves;
    FitsGood(r, base, lo, l, t);
    var m := Mark(l, slots);
    FitsMore(r, base, lo, l, m, t);
    ConstantRuns(fns, o, base, lo, m, t, r, fuel);
    var q := Do(Ask(r), Op.Push(o.value(r.asked)));
    LeavesFits(r, q, base, lo, m, t, 1);
    CapturedAll(q, base, lo, m, t + 1, slots);
    FitsLeaves(q, CaptureAll(q, base, slots), base, lo, m, t + 1);
    LeavesMore(r, q, (CaptureAll(q, base, slots), Done), base, lo, m, m, t, 1, 0);
  }

  lemma LeavesFits(r: Run, q: Run, base: nat, lo: nat, l: seq<Local>, t: nat, k: nat)
    requires Leaves(r, (q, Done), base, lo, l, t, k)
    ensures Fits(q, base, lo, l, t + k) && |q.cells.slots| == base + |l| + t + k && Good(q)
  {
  }

  lemma FitsLeaves(r: Run, q: Run, base: nat, lo: nat, l: seq<Local>, t: nat)
    requires Fits(r, base, lo, l, t) && Fits(q, base, lo, l, t) && Kept(r, q, base, |r.cells.slots|, l)
    ensures Leaves(r, (q, Done), base, lo, l, t, 0)
  {
    hide Good, Captured;
  }

  // However a run goes on, no expression pops a captured variable.
  lemma {:induction false} ExprRuns(
      fns: seq<Procedure>, o: Oracle, base: nat, lo: nat, l: seq<Local>, t: nat, e: Expr, r: Run, fuel: nat)
    requires o.strict && Fits(r, base, lo, l, t)
    ensures var c := GenExpr(l, e); Leaves(r, Exec(fns, o, base, c.0, r, fuel), base, lo, c.1, t, 1)
    decreases fuel, 1, e
  {
    hide Good, Captured, Do, Kept, Fits, Leaves;
    FitsGood(r, base, lo, l, t);
    match e
    case Constant => ConstantRuns(fns, o, base, lo, l, t, r, fuel);
    case Name(x) => NameRuns(fns, o, base, lo, l, t, x, r, fuel);
    case Assign(x, value) =>
      var v := GenExpr(l, value);
      ExprRuns(fns, o, base, lo, l, t, value, r, fuel);
      var q := Exec(fns, o, base, v.0, r, fuel);
      LeavesStops(r, q, base, lo, v.1, t, 1);
      if q.1 == Done {
        var i := Resolve(l, x);
        WriteRuns(fns, o, base, lo, v.1, t + 1, i, q.0, fuel);
        var s := Exec(fns, o, base, if i >= 0 then WriteLocal(i) else WriteOuter, q.0, fuel);
        LeavesMore(r, q.0, s, base, lo, v.1, v.1, t, 1, 0);
      }
    case Function(free) => ClosureRuns(fns, o, base, lo, l, t, Slots(l, free), r, fuel);
    case Call(receiver, args) => CallRuns(fns, o, base, lo, l, t, receiver, args, r, fuel);
    case Logical(left, right) => LogicalRuns(fns, o, base, lo, l, t, left, right, r, fuel);
  }

  lemma LeavesStops(r: Run, q: (Run, Outcome), base: nat, lo: nat, l: seq<Local>, t: nat, k: nat)
    requires Leaves(r, q, base, lo, l, t, k)
    ensures q.1 == Done || q.1 == Stopped
    ensures q.1 == Done ==> Fits(q.0, base, lo, l, t + k) && Good(q.0) && Good(Ask(q.0)) && lo <= |l|
    ensures q.1 == Stopped ==> q.0.legal && forall m, n, j :: Leaves(r, q, base, lo, m, n, j)
  {
  }

  lemma {:induction false} LogicalRuns(
      fns: seq<Procedure>, o: Oracle, base: nat, lo: nat, l: seq<Local>, t: nat, left: Expr, right: Expr, r: Run,
      fuel: nat)
    requires o.strict && Fits(r, base, lo, l, t)
    ensures var c := GenExpr(l, Logical(left, right));
            Leaves(r, Exec(fns, o, base, c.0, r, fuel), base, lo, c.1, t, 1)
    decreases fuel, 1, Logical(left, right), 0
  {
    hide Good, Captured, Do, Kept, Fits, Leaves, Exec;
    FitsGood(r, base, lo, l, t);
    var a := GenExpr(l, left);
    var b := GenExpr(a.1, right);
    ExprRuns(fns, o, base, lo, l, t, left, r, fuel);
    ExecThen(fns, o, base, a.0, Shortcut(b.0), r, fuel);
    var q := Exec(fns, o, base, a.0, r, fuel);
    LeavesStops(r, q, base, lo, a.1, t, 1);
    if q.1 == Done {
      ExecShortcut(fns, o, base, b.0, q.0, fuel);
      if o.choice(q.0.asked) == 0 {
        SkippedRight(r, q.0, base, lo, a.1, b.1, t);
      } else {
        AfterTest(r, q.0, base, lo, a.1, t);
        var s := Do(Ask(q.0), Op.Drop);
        ExprRuns(fns, o, base, lo, a.1, t, right, s, fuel);
        LeavesMore(r, s, Exec(fns, o, base, b.0, s, fuel), base, lo, a.1, b.1, t, 0, 1);
      }
    }
  }

  lemma SkippedRight(r: Run, q: Run, base: nat, lo: nat, l: seq<Local>, m: seq<Local>, t: nat)
    requires Leaves(r, (q, Done), base, lo, l, t, 1) && Marks(l, m) && |l| == |m|
    ensures Leaves(r, (Ask(q), Done), base, lo, m, t, 1)
  {
    hide Good, Captured;
    Asked(q, base, lo, l, t + 1);
    FitsMore(Ask(q), base, lo, l, m, t + 1);
    KeptTrans(r, q, Ask(q), base, base + |l| + t, base + |l| + t, l, l);
    KeptMore(r, Ask(q), base, base + |l| + t, base + |l| + t, l, m);
  }

  // A jump instruction pops the condition.
  lemma AfterTest(r: Run, q: Run, base: nat, lo: nat, l: seq<Local>, t: nat)
    requires Leaves(r, (q, Done), base, lo, l, t, 1)
    ensures Good(q) && Leaves(r, (Do(Ask(q), Op.Drop), Done), base, lo, l, t, 0)
    ensures Fits(Do(Ask(q), Op.Drop), base, lo, l, t)
  {
    hide LegalRun, Final, Captured, Do, WellScoped;
    Asked(q, base, lo, l, t + 1);
    Dropped(Ask(q), base, lo, l, t + 1);
    var s := Do(Ask(q), Op.Drop);
    KeptTrans(q, Ask(q), s, base, base + |l| + t + 1, base + |l| + t, l, l);
    KeptTrans(r, q, s, base, base + |l| + t, base + |l| + t, l, l);
  }

  lemma {:induction false} ArgsRuns(
      fns: seq<Procedure>, o: Oracle, base: nat, lo: nat, l: seq<Local>, t: nat, args: Args, r: Run, fuel: nat)
    requires o.strict && Fits(r, base, lo, l, t)
    ensures var c := GenArgs(l, args);
            Leaves(r, Exec(fns, o, base, c.0, r, fuel), base, lo, c.1, t, Count(args))
    decreases fuel, 1, args
  {
    hide Good, Captured, Do, Kept, Fits, Leaves;
    FitsGood(r, base, lo, l, t);
    match args
    case NoArgs =>
      SameLeaves(r, base, lo, l, t);
    case Arg(e, rest) =>
      var a := GenExpr(l, e);
      ExprRuns(fns, o, base, lo, l, t, e, r, fuel);
      var q := Exec(fns, o, base, a.0, r, fuel);
      LeavesStops(r, q, base, lo, a.1, t, 1);
      if q.1 == Done {
        ArgsRuns(fns, o, base, lo, a.1, t + 1, rest, q.0, fuel);
        var b := GenArgs(a.1, rest);
        LeavesMore(r, q.0, Exec(fns, o, base, b.0, q.0, fuel), base, lo, a.1, b.1, t, 1, Count(rest));
      }
  }

  lemma SameLeaves(r: Run, base: nat, lo: nat, l: seq<Local>, t: nat)
    requires Fits(r, base, lo, l, t)
    ensures Leaves(r, (r, Done), base, lo, l, t, 0)
  {
    hide Good, Captured;
  }

  lemma {:induction false} CallRuns(
      fns: seq<Procedure>, o: Oracle, base: nat, lo: nat, l: seq<Local>, t: nat, receiver: Expr, args: Args, r: Run,
      fuel: nat)
    requires o.strict && Fits(r, base, lo, l, t)
    ensures var c := GenExpr(l, Call(receiver, args));
            Leaves(r, Exec(fns, o, base, c.0, r, fuel), base, lo, c.1, t, 1)
    decreases fuel, 1, Call(receiver, args), 0
  {
    hide Good, Captured, Do, Kept, Fits, Leaves, Exec, ExecCall;
    FitsGood(r, base, lo, l, t);
    var f := GenExpr(l, receiver);
    var a := GenArgs(f.1, args);
    var call := CallMethod(Count(args));
    ExecThen(fns, o, base, f.0, Then(a.0, call), r, fuel);
    ExprRuns(fns, o, base, lo, l, t, receiver, r, fuel);
    var q := Exec(fns, o, base, f.0, r, fuel);
    LeavesStops(r, q, base, lo, f.1, t, 1);
    if q.1 == Stopped {
      StoppedLeaves(r, q, base, lo, a.1, t, 1);
    } else {
      ArgsRuns(fns, o, base, lo, f.1, t + 1, args, q.0, fuel);
      var s := Exec(fns, o, base, a.0, q.0, fuel);
      ExecThen(fns, o, base, a.0, call, q.0, fuel);
      LeavesMore(r, q.0, s, base, lo, f.1, a.1, t, 1, Count(args));
      LeavesStops(r, s, base, lo, a.1, t, Count(args) + 1);
      if s.1 == Stopped {
        StoppedLeaves(r, s, base, lo, a.1, t, 1);
      } else {
        ExecCalls(fns, o, base, Count(args), s.0, fuel);
        InvokeRuns(fns, o, base, lo, a.1, t, Count(args), s.0, fuel);
        AfterCall(r, s.0, ExecCall(fns, o, Count(args), s.0, fuel), base, lo, a.1, t, Count(args));
      }
    }
  }

  lemma StoppedLeaves(r: Run, q: (Run, Outcome), base: nat, lo: nat, l: seq<Local>, t: nat, k: nat)
    requires q.1 == Stopped && q.0.legal
    ensures Leaves(r, q, base, lo, l, t, k)
  {
  }

  lemma AfterCall(r: Run, s: Run, q: (Run, Outcome), base: nat, lo: nat, l: seq<Local>, t: nat, n: nat)
    requires Leaves(r, (s, Done), base, lo, l, t, n + 1) && Leaves(s, q, base, lo, l, t, 1)
    ensures Leaves(r, q, base, lo, l, t, 1)
  {
    hide Good, Captured;
    if q.1 == Done {
      KeptTrans(r, s, q.0, base, base + |l| + t, base + |l| + t, l, l);
    }
  }

  // ----- Statements -----

  // Code stopped, or left the frame as the compiler takes it to be: with the locals
  // [l], as the loop around it started, or gone but for the result.
  predicate Settles(r: Run, q: (Run, Outcome), base: nat, lo: nat, n: nat, l: seq<Local>) {
    && Good(q.0) && q.0.legal
    && match q.1
       case Done => Fits(q.0, base, lo, l, 0) && Kept(r, q.0, base, base + n, l)
       case Returned =>
         |q.0.cells.slots| == base + 1 && !Captured(q.0, base) && Kept(r, q.0, base, base, l)
       case Stopped => true
       case _ => |q.0.cells.slots| == base + lo && Kept(r, q.0, base, base + lo, l)
  }

  lemma StoppedSettles(r: Run, q: (Run, Outcome), base: nat, lo: nat, n: nat, l: seq<Local>)
    requires Good(q.0) && q.0.legal && q.1 == Stopped
    ensures Settles(r, q, base, lo, n, l)
  {
  }

  lemma TestKept(r: Run, q: Run, base: nat, lo: nat, l: seq<Local>)
    requires Good(q) && Good(Ask(q)) && Leaves(r, (Do(Ask(q), Op.Drop), Done), base, lo, l, 0, 0)
    ensures Kept(r, Do(Ask(q), Op.Drop), base, base + |l|, l)
  {
  }

  lemma SettlesGood(r: Run, q: (Run, Outcome), base: nat, lo: nat, n: nat, l: seq<Local>)
    requires Settles(r, q, base, lo, n, l)
    ensures Good(q.0) && (q.1 == Done ==> Fits(q.0, base, lo, l, 0))
  {
  }

  lemma SettlesMore(r: Run, q: (Run, Outcome), base: nat, lo: nat, n: nat, l: seq<Local>, m: seq<Local>)
    requires Settles(r, q, base, lo, n, l) && Marks(l, m) && (q.1 == Done ==> |l| == |m|)
    ensures Settles(r, q, base, lo, n, m)
  {
    hide Captured;
  }

  // Code after code that kept the frame.
  lemma SettlesNext(
      r: Run, q: Run, s: (Run, Outcome), base: nat, lo: nat, n: nat, l: seq<Local>, m: seq<Local>)
    requires Kept(r, q, base, base + n, l) && Settles(q, s, base, lo, |l|, m) && lo <= n <= |l| && Marks(l, m)
    ensures Settles(r, s, base, lo, n, m)
  {
    hide Captured, Fits, Good;
    match s.1
    case Done =>
      KeptMore(q, s.0, base, base + |l|, base + n, m, m);
      KeptTrans(r, q, s.0, base, base + n, base + n, l, m);
    case Returned => KeptTrans(r, q, s.0, base, base + n, base, l, m);
    case Stopped =>
    case _ => KeptTrans(r, q, s.0, base, base + n, base + lo, l, m);
  }

  // The end of a block.
  lemma BlockEnds(
      fns: seq<Procedure>, o: Oracle, base: nat, lo: nat, n: nat, l: seq<Local>, r: Run, q: (Run, Outcome), fuel: nat)
    requires Settles(r, q, base, lo, n, l) && lo <= n <= |l|
    ensures Good(q.0)
    ensures q.1 != Done ==> Settles(r, q, base, lo, n, l[..n])
    ensures q.1 == Done ==> Settles(r, Exec(fns, o, base, Discard(l, n), q.0, fuel), base, lo, n, l[..n])
  {
    hide Captured;
    match q.1
    case Done =>
      Discarded(fns, o, base, lo, l, n, q.0, fuel);
      var s := Exec(fns, o, base, Discard(l, n), q.0, fuel);
      KeptCut(r, q.0, base, base + n, base + n, l, n);
      KeptTrans(r, q.0, s.0, base, base + n, base + n, l[..n], l[..n]);
    case Returned => KeptCut(r, q.0, base, base, base, l, n);
    case Stopped =>
    case _ => KeptCut(r, q.0, base, base + lo, base + lo, l, n);
  }

  lemma {:induction false} BlockRuns(
      fns: seq<Procedure>, o: Oracle, base: nat, loop: nat, l: seq<Local>, s: Stmt, r: Run, fuel: nat)
    requires o.strict && Fits(r, base, loop, l, 0)
    ensures var c := GenBlock(l, loop, s); Settles(r, Exec(fns, o, base, c.0, r, fuel), base, loop, |l|, c.1)
    decreases fuel, 2, s, 2
  {
    hide Good, Captured, Do, Kept, Settles, Discard;
    FitsGood(r, base, loop, l, 0);
    StmtRuns(fns, o, base, loop, l, s, r, fuel);
    var b := GenStmt(l, loop, s);
    BlockEnds(fns, o, base, loop, |l|, b.1, r, Exec(fns, o, base, b.0, r, fuel), fuel);
  }

  lemma {:induction false} StmtRuns(
      fns: seq<Procedure>, o: Oracle, base: nat, loop: nat, l: seq<Local>, s: Stmt, r: Run, fuel: nat)
    requires o.strict && Fits(r, base, loop, l, 0)
    ensures var c := GenStmt(l, loop, s); Settles(r, Exec(fns, o, base, c.0, r, fuel), base, loop, |l|, c.1)
    decreases fuel, 2, s, 1
  {
    hide Good, Captured, Do, Kept, Settles, Fits, Leaves, Discard, GenBlock;
    FitsGood(r, base, loop, l, 0);
    match s
    case Var(x, e) => VarRuns(fns, o, base, loop, l, x, e, r, fuel);
    case Evaluate(e) => EvaluateRuns(fns, o, base, loop, l, e, r, fuel);
    case Give(e) => GiveRuns(fns, o, base, loop, l, e, r, fuel);
    case Seq(a, b) =>
      var c := GenStmt(l, loop, a);
      StmtRuns(fns, o, base, loop, l, a, r, fuel);
      var q := Exec(fns, o, base, c.0, r, fuel);
      SettlesGood(r, q, base, loop, |l|, c.1);
      var d := GenStmt(c.1, loop, b);
      if q.1 == Done {
        StmtRuns(fns, o, base, loop, c.1, b, q.0, fuel);
        SettlesThen(r, q.0, Exec(fns, o, base, d.0, q.0, fuel), base, loop, l, c.1, d.1);
      } else {
        SettlesMore(r, q, base, loop, |l|, c.1, d.1);
      }
    case Block(body) => BlockRuns(fns, o, base, loop, l, body, r, fuel);
    case If(e, a, b) => IfRuns(fns, o, base, loop, l, e, a, b, r, fuel);
    case While(e, body) => WhileRuns(fns, o, base, loop, l, e, body, r, fuel);
    case Break => JumpRuns(fns, o, base, loop, l, Leave, r, fuel);
    case Continue => JumpRuns(fns, o, base, loop, l, Again, r, fuel);
  }

  lemma SettlesThen(
      r: Run, q: Run, s: (Run, Outcome), base: nat, lo: nat, l: seq<Local>, m: seq<Local>, k: seq<Local>)
    requires Settles(r, (q, Done), base, lo, |l|, m) && Settles(q, s, base, lo, |m|, k)
    requires lo <= |l| <= |m| && Marks(m, k)
    ensures Settles(r, s, base, lo, |l|, k)
  {
    hide Captured, Fits, Good;
    SettlesNext(r, q, s, base, lo, |l|, m, k);
  }

  lemma VarRuns(
      fns: seq<Procedure>, o: Oracle, base: nat, loop: nat, l: seq<Local>, x: string, e: Expr, r: Run, fuel: nat)
    requires o.strict && Fits(r, base, loop, l, 0)
    ensures var c := GenStmt(l, loop, Var(x, e)); Settles(r, Exec(fns, o, base, c.0, r, fuel), base, loop, |l|, c.1)
    decreases fuel, 2, Var(x, e), 0
  {
    hide Good, Captured;
    FitsGood(r, base, loop, l, 0);
    ExprRuns(fns, o, base, loop, l, 0, e, r, fuel);
    var v := GenExpr(l, e);
    var q := Exec(fns, o, base, v.0, r, fuel);
    if q.1 == Done { KeptMore(r, q.0, base, base + |l|, base + |l|, v.1, v.1 + [Closures.Local(x, false)]); }
  }

  lemma EvaluateRuns(
      fns: seq<Procedure>, o: Oracle, base: nat, loop: nat, l: seq<Local>, e: Expr, r: Run, fuel: nat)
    requires o.strict && Fits(r, base, loop, l, 0)
    ensures var c := GenStmt(l, loop, Evaluate(e)); Settles(r, Exec(fns, o, base, c.0, r, fuel), base, loop, |l|, c.1)
    decreases fuel, 2, Evaluate(e), 0
  {
    hide Good, Captured, Do, Kept;
    FitsGood(r, base, loop, l, 0);
    ExprRuns(fns, o, base, loop, l, 0, e, r, fuel);
    var v := GenExpr(l, e);
    var q := Exec(fns, o, base, v.0, r, fuel);
    if q.1 == Done {
      Dropped(q.0, base, loop, v.1, 1);
      KeptTrans(r, q.0, Do(q.0, Op.Drop), base, base + |l|, base + |l|, v.1, v.1);
    }
  }

  // The result is popped, and takes the place of the frame.
  lemma ReturnRuns(fns: seq<Procedure>, o: Oracle, base: nat, lo: nat, l: seq<Local>, r: Run, fuel: nat)
    requires Fits(r, base, lo, l, 1)
    ensures Settles(r, Exec(fns, o, base, Return, r, fuel), base, lo, |l|, l)
  {
    hide LegalRun, Final;
    Dropped(r, base, lo, l, 1);
    var a := Do(r, Op.Drop);
    var b := Do(a, Op.CloseFrom(base));
    var c := Do(b, Op.Push(Top(r)));
    assert b.cells == a.cells.(slots := a.cells.slots[..base]);
    assert c.cells.captured == r.cells.captured && |c.cells.slots| == base + 1;
    forall i | 0 <= i < base ensures c.cells.slots[i] == r.cells.slots[i] && (Captured(c, i) ==> Captured(r, i)) {
    }
  }

  lemma GiveRuns(
      fns: seq<Procedure>, o: Oracle, base: nat, loop: nat, l: seq<Local>, e: Expr, r: Run, fuel: nat)
    requires o.strict && Fits(r, base, loop, l, 0)
    ensures var c := GenStmt(l, loop, Give(e)); Settles(r, Exec(fns, o, base, c.0, r, fuel), base, loop, |l|, c.1)
    decreases fuel, 2, Give(e), 0
  {
    hide Good, Captured, Do, Kept;
    FitsGood(r, base, loop, l, 0);
    ExprRuns(fns, o, base, loop, l, 0, e, r, fuel);
    var v := GenExpr(l, e);
    var q := Exec(fns, o, base, v.0, r, fuel);
    if q.1 == Done {
      ReturnRuns(fns, o, base, loop, v.1, q.0, fuel);
      SettlesNext(r, q.0, Exec(fns, o, base, Return, q.0, fuel), base, loop, |l|, v.1, v.1);
    }
  }

  // A break or a continue discards the locals of the loop that are in scope.
  lemma JumpRuns(fns: seq<Procedure>, o: Oracle, base: nat, loop: nat, l: seq<Local>, jump: Code, r: Run, fuel: nat)
    requires Fits(r, base, loop, l, 0) && (jump == Leave || jump == Again)
    ensures Settles(r, Exec(fns, o, base, Then(Discard(l, loop), jump), r, fuel), base, loop, |l|, l)
  {
    hide Captured;
    Discarded(fns, o, base, loop, l, loop, r, fuel);
    var q := Exec(fns, o, base, Discard(l, loop), r, fuel);
    KeptMore(r, q.0, base, base + loop, base + loop, l[..loop], l);
  }

  lemma {:induction false} IfRuns(
      fns: seq<Procedure>, o: Oracle, base: nat, loop: nat, l: seq<Local>, e: Expr, yes: Stmt, no: Stmt, r: Run,
      fuel: nat)
    requires o.strict && Fits(r, base, loop, l, 0)
    ensures var c := GenStmt(l, loop, If(e, yes, no));
            Settles(r, Exec(fns, o, base, c.0, r, fuel), base, loop, |l|, c.1)
    decreases fuel, 2, If(e, yes, no), 0
  {
    hide Good, Captured, Do, Kept, Settles, Fits, Leaves, GenBlock, GenExpr, Exec;
    FitsGood(r, base, loop, l, 0);
    ExprRuns(fns, o, base, loop, l, 0, e, r, fuel);
    var v := GenExpr(l, e);
    var q := Exec(fns, o, base, v.0, r, fuel);
    var c := GenBlock(v.1, loop, yes);
    var d := GenBlock(c.1, loop, no);
    ExecThen(fns, o, base, v.0, Branch(c.0, d.0), r, fuel);
    LeavesStops(r, q, base, loop, v.1, 0, 1);
    if q.1 == Stopped {
      StoppedSettles(r, q, base, loop, |l|, d.1);
    } else {
      ExecBranch(fns, o, base, c.0, d.0, q.0, fuel);
      AfterTest(r, q.0, base, loop, v.1, 0);
      TestKept(r, q.0, base, loop, v.1);
      var s := Do(Ask(q.0), Op.Drop);
      if o.choice(q.0.asked) == 0 {
        BlockRuns(fns, o, base, loop, v.1, yes, s, fuel);
        var b := Exec(fns, o, base, c.0, s, fuel);
        SettlesMore(s, b, base, loop, |v.1|, c.1, d.1);
        SettlesNext(r, s, b, base, loop, |l|, v.1, d.1);
      } else {
        FitsMore(s, base, loop, v.1, c.1, 0);
        BlockRuns(fns, o, base, loop, c.1, no, s, fuel);
        SettlesNext(r, s, Exec(fns, o, base, d.0, s, fuel), base, loop, |l|, v.1, d.1);
      }
    }
  }

  // A loop, as it starts another time. Only locals declared before it are there, and
  // nothing in it discards those.
  lemma {:induction false} LoopRuns(
      fns: seq<Procedure>, o: Oracle, base: nat, l: seq<Local>, e: Expr, body: Stmt, r: Run, fuel: nat)
    requires o.strict && Fits(r, base, |l|, l, 0)
    ensures var v := GenExpr(l, e);
            var b := GenBlock(v.1, |l|, body);
            var q := Exec(fns, o, base, Loop(v.0, b.0), r, fuel);
            Settles(r, q, base, |l|, |l|, b.1) && q.1 != Left && q.1 != Repeated
    decreases fuel, 2, body, 3
  {
    hide Good, Captured, Do, Kept, Settles, Fits, Leaves, GenBlock, GenExpr, Exec;
    FitsGood(r, base, |l|, l, 0);
    ExprRuns(fns, o, base, |l|, l, 0, e, r, fuel);
    var v := GenExpr(l, e);
    var b := GenBlock(v.1, |l|, body);
    var q := Exec(fns, o, base, v.0, r, fuel);
    LeavesStops(r, q, base, |l|, v.1, 0, 1);
    ExecLoop(fns, o, base, v.0, b.0, r, fuel);
    if q.1 == Stopped {
      StoppedSettles(r, q, base, |l|, |l|, b.1);
    } else {
      AfterTest(r, q.0, base, |l|, v.1, 0);
      TestKept(r, q.0, base, |l|, v.1);
      var s := Do(Ask(q.0), Op.Drop);
      BlockRuns(fns, o, base, |l|, v.1, body, s, fuel);
      var a := Exec(fns, o, base, b.0, s, fuel);
      if o.choice(q.0.asked) == 0 {
        SettlesHere(r, s, base, |l|, v.1, b.1);
      } else {
        SettlesNext(r, s, a, base, |l|, |l|, v.1, b.1);
        SettlesGood(r, a, base, |l|, |l|, b.1);
        if a.1 == Left {
          LeftLoop(r, a.0, a.1, base, l, b.1);
        } else if a.1 == Done || a.1 == Repeated {
          LeftLoop(r, a.0, a.1, base, l, b.1);
          if fuel == 0 {
            StoppedSettles(r, (a.0, Stopped), base, |l|, |l|, b.1);
          } else {
            LoopRuns(fns, o, base, l, e, body, a.0, fuel - 1);
            var z := Exec(fns, o, base, Loop(v.0, b.0), a.0, fuel - 1);
            SettlesNext(r, a.0, z, base, |l|, |l|, b.1, b.1);
          }
        }
      }
    }
  }

  lemma AskGood(r: Run)
    requires Good(r)
    ensures Good(Ask(r))
  {
  }

  lemma ExecLoop(fns: seq<Procedure>, o: Oracle, base: nat, test: Code, body: Code, r: Run, fuel: nat)
    requires Good(r)
    ensures var q := Exec(fns, o, base, test, r, fuel);
            Good(Ask(q.0))
            && Exec(fns, o, base, Loop(test, body), r, fuel)
               == if q.1 != Done then q
                  else
                    var r1 := Do(Ask(q.0), Op.Drop);
                    if o.choice(q.0.asked) == 0 then (r1, Done)
                    else
                      var b := Exec(fns, o, base, body, r1, fuel);
                      if b.1 == Left then (b.0, Done)
                      else if b.1 != Done && b.1 != Repeated then b
                      else if fuel == 0 then (b.0, Stopped)
                      else Exec(fns, o, base, Loop(test, body), b.0, fuel - 1)
  {
    hide Do, Good;
    AskGood(Exec(fns, o, base, test, r, fuel).0);
  }

  lemma SettlesHere(r: Run, s: Run, base: nat, n: nat, l: seq<Local>, m: seq<Local>)
    requires Fits(s, base, n, l, 0) && Kept(r, s, base, base + |l|, l) && Marks(l, m) && |l| == |m| == n
    ensures Settles(r, (s, Done), base, n, n, m)
  {
    hide Captured;
    KeptMore(r, s, base, base + |l|, base + |l|, l, m);
  }

  // After the body of a loop, or a break or a continue in it, the locals are those
  // before the loop.
  lemma LeftLoop(r: Run, a: Run, out: Outcome, base: nat, l: seq<Local>, m: seq<Local>)
    requires Settles(r, (a, out), base, |l|, |l|, m) && |m| == |l| && (out == Done || out == Left || out == Repeated)
    ensures Settles(r, (a, Done), base, |l|, |l|, m) && Kept(r, a, base, base + |l|, m) && Fits(a, base, |l|, l, 0)
    ensures a.legal && Good(a)
  {
    hide Captured, Good;
  }

  lemma WhileRuns(
      fns: seq<Procedure>, o: Oracle, base: nat, loop: nat, l: seq<Local>, e: Expr, body: Stmt, r: Run, fuel: nat)
    requires o.strict && Fits(r, base, loop, l, 0)
    ensures var c := GenStmt(l, loop, While(e, body));
            Settles(r, Exec(fns, o, base, c.0, r, fuel), base, loop, |l|, c.1)
    decreases fuel, 2, While(e, body), 0
  {
    hide Good, Captured, Exec, GenExpr, GenBlock;
    LoopRuns(fns, o, base, l, e, body, r, fuel);
    var v := GenExpr(l, e);
    var b := GenBlock(v.1, |l|, body);
    var q := Exec(fns, o, base, Loop(v.0, b.0), r, fuel);
    if q.1 == Done { OuterFits(r, q.0, base, loop, l, b.1); }
  }

  lemma OuterFits(r: Run, q: Run, base: nat, lo: nat, l: seq<Local>, m: seq<Local>)
    requires Fits(r, base, lo, l, 0) && Fits(q, base, |l|, m, 0) && Kept(r, q, base, base + |l|, m)
    requires |l| == |m| && Marks(l, m)
    ensures Fits(q, base, lo, m, 0)
  {
    hide Good;
    forall i | base + lo <= i < base + |l| && Captured(q, i) ensures m[i - base].isUpvalue {
      assert Captured(r, i) ==> l[i - base].isUpvalue;
    }
  }

  // ----- Calls -----

  // A frame ends with its result in its first slot.
  lemma ProcedureRuns(fns: seq<Procedure>, o: Oracle, base: nat, f: Procedure, r: Run, fuel: nat)
    requires o.strict && Fits(r, base, 0, Params(f.params), 0)
    ensures var q := Exec(fns, o, base, GenProcedure(f), r, fuel);
            && q.0.legal
            && (q.1 == Returned ==>
                  |q.0.cells.slots| == base + 1 && !Captured(q.0, base) && Kept(r, q.0, base, base, []))
    decreases fuel, 3
  {
    hide Good, Captured, Do, GenStmt;
    var l := Params(f.params);
    var s := GenStmt(l, 0, f.body);
    StmtRuns(fns, o, base, 0, l, f.body, r, fuel);
    var q := Exec(fns, o, base, s.0, r, fuel);
    ExecThen(fns, o, base, s.0, Then(PushValue, Return), r, fuel);
    if q.1 == Done {
      EndRuns(fns, o, base, s.1, q.0, fuel);
      var z := Exec(fns, o, base, Then(PushValue, Return), q.0, fuel);
      if z.1 == Returned { KeptTrans(r, q.0, z.0, base, base + |l|, base, s.1, s.1); }
    }
  }

  lemma EndRuns(fns: seq<Procedure>, o: Oracle, base: nat, l: seq<Local>, r: Run, fuel: nat)
    requires Fits(r, base, 0, l, 0)
    ensures Settles(r, Exec(fns, o, base, Then(PushValue, Return), r, fuel), base, 0, |l|, l)
  {
    hide Good, Captured, Do;
    ConstantRuns(fns, o, base, 0, l, 0, r, fuel);
    var q := Exec(fns, o, base, PushValue, r, fuel);
    ExecThen(fns, o, base, PushValue, Return, r, fuel);
    if q.1 == Done {
      ReturnRuns(fns, o, base, 0, l, q.0, fuel);
      SettlesNext(r, q.0, Exec(fns, o, base, Return, q.0, fuel), base, 0, |l|, l, l);
    }
  }

  // A call takes its receiver and arguments off the stack, and leaves its result.
  lemma InvokeRuns(
      fns: seq<Procedure>, o: Oracle, base: nat, lo: nat, l: seq<Local>, t: nat, n: nat, r: Run, fuel: nat)
    requires o.strict && Fits(r, base, lo, l, t + n + 1)
    ensures Leaves(r, ExecCall(fns, o, n, r, fuel), base, lo, l, t, 1)
    decreases fuel, 0
  {
    hide Good, Captured, Do, Exec, GenProcedure;
    FitsGood(r, base, lo, l, t + n + 1);
    Asked(r, base, lo, l, t + n + 1);
    var j, here := o.choice(r.asked), |r.cells.slots| - n - 1;
    if j == 1 {
      PrimitiveRuns(base, lo, l, t, n, r, o.value(r.asked));
    } else if 2 <= j < |fns| + 2 && |fns[j - 2].params| == n && fuel > 0 {
      FrameFits(r, base, lo, l, t, fns[j - 2].params);
      ProcedureRuns(fns, o, here, fns[j - 2], Ask(r), fuel - 1);
      var q := Exec(fns, o, here, GenProcedure(fns[j - 2]), Ask(r), fuel - 1);
      if q.1 == Returned { FrameGone(r, q.0, base, lo, l, t, n); }
    }
  }

  lemma PrimitiveRuns(base: nat, lo: nat, l: seq<Local>, t: nat, n: nat, r: Run, v: Syntax.Value)
    requires Fits(r, base, lo, l, t + n + 1)
    ensures Good(Ask(r))
            && Leaves(r, (Do(DropAll(Ask(r), n + 1), Op.Push(v)), Done), base, lo, l, t, 1)
  {
    hide Good, Captured, Do;
    Asked(r, base, lo, l, t + n + 1);
    DroppedAll(Ask(r), base, lo, l, t + n + 1, n + 1);
    var q := DropAll(Ask(r), n + 1);
    Pushed(q, base, lo, l, t, v);
    KeptTrans(r, Ask(r), q, base, |r.cells.slots|, base + |l| + t, l, l);
    KeptTrans(r, q, Do(q, Op.Push(v)), base, base + |l| + t, base + |l| + t, l, l);
  }

  // The receiver and the arguments become the first locals of the function called.
  lemma FrameFits(r: Run, base: nat, lo: nat, l: seq<Local>, t: nat, params: seq<string>)
    requires Fits(r, base, lo, l, t + |params| + 1)
    ensures Fits(Ask(r), base + |l| + t, 0, Params(params), 0)
  {
    forall i | base + |l| + t <= i < |r.cells.slots| ensures !Captured(Ask(r), i) {
      assert !Captured(r, i);
    }
  }

  lemma FrameGone(r: Run, q: Run, base: nat, lo: nat, l: seq<Local>, t: nat, n: nat)
    requires Fits(r, base, lo, l, t + n + 1) && Good(q) && q.legal
    requires var here := base + |l| + t;
             |q.cells.slots| == here + 1 && !Captured(q, here) && Kept(Ask(r), q, here, here, [])
    ensures Leaves(r, (q, Done), base, lo, l, t, 1)
  {
    hide Good;
    var here := base + |l| + t;
    forall i | 0 <= i < here ensures q.cells.slots[i] == r.cells.slots[i] && (Captured(q, i) ==> Captured(r, i)) {
      assert Captured(q, i) ==> Captured(Ask(r), i);
    }
  }

  // ----- Extra arguments -----

  // A run in which every call is exact is the strict one.
  lemma {:induction false} ExactRun(fns: seq<Procedure>, o: Oracle, base: nat, c: Code, r: Run, fuel: nat)
    requires Good(r)
    ensures var q := Exec(fns, o, base, c, r, fuel);
            q.0.exact ==> Exec(fns, o.(strict := true), base, c, r, fuel) == q
    decreases fuel, 1, c
  {
    hide Good, Do, DropAll, CaptureAll, GenProcedure;
    AskGood(r);
    match c
    case Then(a, b) =>
      ExactRun(fns, o, base, a, r, fuel);
      ExactRun(fns, o, base, b, Exec(fns, o, base, a, r, fuel).0, fuel);
    case CallMethod(n) => ExactCall(fns, o, n, r, fuel);
    case Branch(a, b) =>
      ExactRun(fns, o, base, if o.choice(r.asked) == 0 then a else b, Do(Ask(r), Op.Drop), fuel);
    case Shortcut(rest) => ExactRun(fns, o, base, rest, Do(Ask(r), Op.Drop), fuel);
    case Loop(test, body) => ExactLoop(fns, o, base, test, body, r, fuel);
    case _ =>
  }

  lemma {:induction false} ExactCall(fns: seq<Procedure>, o: Oracle, n: nat, r: Run, fuel: nat)
    requires Good(r)
    ensures var q := ExecCall(fns, o, n, r, fuel);
            q.0.exact ==> ExecCall(fns, o.(strict := true), n, r, fuel) == q
    decreases fuel, 0
  {
    hide Good, Do, DropAll, GenProcedure;
    AskGood(r);
    var j := o.choice(r.asked);
    if 2 <= j < |fns| + 2 && |fns[j - 2].params| == n && n < |r.cells.slots| && fuel > 0 {
      assert Ask(r).(exact := r.exact) == Ask(r);
      ExactRun(fns, o, |r.cells.slots| - n - 1, GenProcedure(fns[j - 2]), Ask(r), fuel - 1);
    }
  }

  lemma {:induction false} ExactLoop(
      fns: seq<Procedure>, o: Oracle, base: nat, test: Code, body: Code, r: Run, fuel: nat)
    requires Good(r)
    ensures var c := Loop(test, body);
            var q := Exec(fns, o, base, c, r, fuel);
            q.0.exact ==> Exec(fns, o.(strict := true), base, c, r, fuel) == q
    decreases fuel, 1, Loop(test, body), 0
  {
    hide Good, Do, Exec;
    var o' := o.(strict := true);
    ExactRun(fns, o, base, test, r, fuel);
    ExecLoop(fns, o, base, test, body, r, fuel);
    ExecLoop(fns, o', base, test, body, r, fuel);
    var q := Exec(fns, o, base, test, r, fuel);
    if q.1 == Done && o.choice(q.0.asked) != 0 {
      var s := Do(Ask(q.0), Op.Drop);
      ExactRun(fns, o, base, body, s, fuel);
      var b := Exec(fns, o, base, body, s, fuel);
      if fuel > 0 && (b.1 == Done || b.1 == Repeated) {
        ExactRun(fns, o, base, Loop(test, body), b.0, fuel - 1);
      }
    }
  }

  // ----- Runs -----

  // Calls [f] with [n] arguments, on an empty stack.
  function RunCall(fns: seq<Procedure>, o: Oracle, f: Procedure, n: nat, fuel: nat): (q: Run)
    ensures Good(q) && q.start == Cells([], [], [])
  {
    Exec(fns, o, 0, GenProcedure(f), Arguments(o, n + 1), fuel).0
  }

  function Arguments(o: Oracle, n: nat): (r: Run)
    ensures Good(r) && r.legal && r.exact && r.start == Cells([], [], []) && |r.cells.slots| == n
    ensures r.cells.captured == []
    decreases n
  {
    if n == 0 then
      var empty := Cells([], [], []);
      NothingRun(empty);
      Run(empty, empty, [], 0, true, true)
    else
      var r := Arguments(o, n - 1);
      Do(Ask(r), Op.Push(o.value(r.asked)))
  }

  // No run in which every call is exact pops a captured variable, or uses a slot that
  // it does not have.
  lemma RunsLegal(fns: seq<Procedure>, o: Oracle, f: Procedure, fuel: nat)
    ensures var q := RunCall(fns, o, f, |f.params|, fuel);
            LegalRun(q.start, q.ops) && (q.exact ==> q.legal)
  {
    hide LegalRun, Final, Exec, GenProcedure, Arguments;
    var r := Arguments(o, |f.params| + 1);
    ExactRun(fns, o, 0, GenProcedure(f), r, fuel);
    ProcedureRuns(fns, o.(strict := true), 0, f, r, fuel);
  }

  // Whatever functions with [a] parameters are called with [n] arguments, and whatever
  // they do short of passing extra arguments themselves, is legal.
  ghost predicate SafeCalls(a: nat, n: nat) {
    forall fns: seq<Procedure>, o: Oracle, f: Procedure, fuel: nat ::
      |f.params| == a ==> var q := RunCall(fns, o, f, n, fuel); q.exact ==> q.legal
  }

  // The extra arguments are in the slots that the compiler takes for those of the first
  // locals. A function that closes over its last local captures an earlier one, which
  // is popped.
  lemma ExtraArguments(a: nat, n: nat)
    requires a <= n
    ensures SafeCalls(a, n) <==> n == a
  {
    hide RunCall;
    if a == n {
      forall fns: seq<Procedure>, o: Oracle, f: Procedure, fuel: nat | |f.params| == a
        ensures var q := RunCall(fns, o, f, n, fuel); q.exact ==> q.legal
      {
        RunsLegal(fns, o, f, fuel);
      }
    } else {
      var o, f := Oracle(_ => 0, _ => Syntax.Null, false), Shifted(a, n - a);
      ShiftedFails(o, a, n);
      assert RunCall([], o, f, n, 0).exact;
    }
  }

  function Blanks(a: nat): (r: seq<string>)
    ensures |r| == a
  {
    seq(a, _ => "")
  }

  function Named(k: nat): string {
    seq(k, _ => 'x')
  }

  // [k] variables.
  function Vars(k: nat): Stmt
    requires k > 0
  {
    if k == 1 then Var(Named(1), Constant) else Seq(Vars(k - 1), Var(Named(k), Constant))
  }

  function Plain(k: nat): (r: seq<Local>)
    ensures |r| == k && forall i :: 0 <= i < k ==> !r[i].isUpvalue
  {
    if k == 0 then [] else Plain(k - 1) + [Closures.Local(Named(k), false)]
  }

  // A function with [a] parameters and one more local than [d], that closes over the
  // last.
  function Shifted(a: nat, d: nat): Procedure {
    Procedure(Blanks(a), Block(Seq(Vars(d + 1), Evaluate(Function([Named(d + 1)])))))
  }

  lemma {:induction false} VarsGen(l: seq<Local>, k: nat)
    requires k > 0
    ensures GenStmt(l, 0, Vars(k)).1 == l + Plain(k)
    decreases k
  {
    if k == 1 {
      assert Plain(1) == [Closures.Local(Named(1), false)];
    } else {
      VarsGen(l, k - 1);
      assert l + Plain(k) == l + Plain(k - 1) + [Closures.Local(Named(k), false)];
    }
  }

  lemma {:induction false} VarsRun(
      fns: seq<Procedure>, o: Oracle, l: seq<Local>, k: nat, r: Run, fuel: nat)
    requires Good(r) && r.legal && k > 0
    ensures var q := Exec(fns, o, 0, GenStmt(l, 0, Vars(k)).0, r, fuel);
            && q.1 == Done && q.0.legal && q.0.exact == r.exact
            && |q.0.cells.slots| == |r.cells.slots| + k && q.0.cells.captured == r.cells.captured
    decreases k
  {
    hide LegalRun, Final, WellScoped;
    if k > 1 { VarsRun(fns, o, l, k - 1, r, fuel); }
  }

  // Popping locals that are not marked, of which one is captured.
  lemma {:induction false} PopsCaptured(
      fns: seq<Procedure>, o: Oracle, l: seq<Local>, from: nat, i: nat, r: Run, fuel: nat)
    requires Good(r) && from <= |l| <= |r.cells.slots| && (forall j :: from <= j < |l| ==> !l[j].isUpvalue)
    requires r.legal ==> |r.cells.slots| - (|l| - from) <= i < |r.cells.slots| && Captured(r, i)
    ensures var q := Exec(fns, o, 0, Discard(l, from), r, fuel);
            q.1 == Done && !q.0.legal && q.0.exact == r.exact
    decreases |l|
  {
    hide LegalRun, Final, WellScoped;
    if from < |l| {
      var q := Do(r, Op.Drop);
      PopsCaptured(fns, o, l[..|l| - 1], from, i, q, fuel);
    }
  }

  lemma CapturesOne(r: Run, slots: seq<nat>)
    requires Good(r) && |slots| == 1
    ensures CaptureAll(r, 0, slots) == Do(r, Op.Capture(slots[0]))
  {
    hide Good, Do;
    assert slots[1..] == [];
  }

  // Closing over local [i], and dropping the closure.
  lemma ClosesOver(fns: seq<Procedure>, o: Oracle, i: nat, r: Run, fuel: nat)
    requires Good(r) && r.legal && i < |r.cells.slots|
    ensures var q := Exec(fns, o, 0, Then(Closure([i]), Pop), r, fuel);
            && q.1 == Done && q.0.exact == r.exact
            && (q.0.legal ==> q.0.cells.slots == r.cells.slots && Captured(q.0, i))
            && |q.0.cells.slots| >= |r.cells.slots|
  {
    hide Good, Do, Captured, CaptureAll;
    AskGood(r);
    var a := Do(Ask(r), Op.Push(o.value(r.asked)));
    CapturesOne(a, [i]);
    ClosureMade(r, i, o.value(r.asked));
  }

  lemma ClosureMade(r: Run, i: nat, v: Syntax.Value)
    requires Good(r) && Good(Ask(r)) && r.legal && i < |r.cells.slots|
    ensures var q := Do(Do(Do(Ask(r), Op.Push(v)), Op.Capture(i)), Op.Drop);
            && (q.legal ==> q.cells.slots == r.cells.slots && Captured(q, i)) && |q.cells.slots| >= |r.cells.slots|
  {
    hide LegalRun, Final, WellScoped;
    var b := Do(Do(Ask(r), Op.Push(v)), Op.Capture(i));
    assert b.cells.slots == r.cells.slots + [|r.cells.heap|];
  }

  lemma CloseTop(fns: seq<Procedure>, o: Oracle, r: Run, fuel: nat)
    requires Good(r) && r.cells.slots != []
    ensures var q := Exec(fns, o, 0, CloseUpvalue, r, fuel);
            && q.1 == Done && q.0.exact == r.exact && q.0.legal == r.legal && q.0.cells.captured == r.cells.captured
            && q.0.cells.slots == r.cells.slots[..|r.cells.slots| - 1]
  {
    hide LegalRun, Final, WellScoped;
  }

  lemma EndKeeps(fns: seq<Procedure>, o: Oracle, r: Run, fuel: nat)
    requires Good(r)
    ensures var q := Exec(fns, o, 0, Then(PushValue, Return), r, fuel); q.0.exact == r.exact && (q.0.legal ==> r.legal)
  {
    hide Good, LegalRun, Final, WellScoped;
    AskGood(r);
  }

  lemma ClosureCode(m: seq<Local>, x: string)
    requires m != [] && m[|m| - 1].name == x
    ensures var n := |m| - 1;
            GenStmt(m, 0, Evaluate(Function([x]))) == (Then(Closure([n]), Pop), m[n := m[n].(isUpvalue := true)])
  {
    var n := |m| - 1;
    SlotsOne(m, [x]);
    MarkOne(m, [n]);
  }

  lemma SlotsOne(m: seq<Local>, free: seq<string>)
    requires m != [] && |free| == 1 && m[|m| - 1].name == free[0]
    ensures Slots(m, free) == [|m| - 1]
  {
    assert free[1..] == [];
  }

  lemma MarkOne(m: seq<Local>, slots: seq<nat>)
    requires |slots| == 1 && slots[0] < |m|
    ensures Mark(m, slots) == m[slots[0] := m[slots[0]].(isUpvalue := true)]
  {
    assert slots[1..] == [];
  }

  lemma DiscardMarked(m: seq<Local>, from: nat)
    requires from < |m|
    ensures var n := |m| - 1;
            Discard(m[n := m[n].(isUpvalue := true)], from) == Then(CloseUpvalue, Discard(m[..n], from))
  {
    var n := |m| - 1;
    assert m[n := m[n].(isUpvalue := true)][..n] == m[..n];
  }

  // The code of such a function.
  lemma ShiftedCode(a: nat, d: nat)
    ensures var l := Params(Blanks(a));
            var m := l + Plain(d + 1);
            |l| == a + 1
            && GenBlock(l, 0, Shifted(a, d).body.body).0
               == Then(Then(GenStmt(l, 0, Vars(d + 1)).0, Then(Closure([a + d + 1]), Pop)),
                       Then(CloseUpvalue, Discard(m[..a + d + 1], a + 1)))
  {
    hide Discard, Params, Plain, Vars;
    var l := Params(Blanks(a));
    var m := l + Plain(d + 1);
    VarsGen(l, d + 1);
    LastPlain(d + 1);
    ClosureCode(m, Named(d + 1));
    DiscardMarked(m, a + 1);
  }

  lemma LastPlain(k: nat)
    requires k > 0
    ensures Plain(k)[k - 1].name == Named(k)
  {
  }

  lemma ShiftedFails(o: Oracle, a: nat, n: nat)
    requires a < n
    ensures var q := RunCall([], o, Shifted(a, n - a), n, 0); q.exact && !q.legal
  {
    hide Good, Discard, Params, Plain, Vars, Exec, GenStmt, Arguments, Do, Captured;
    var d := n - a;
    var l := Params(Blanks(a));
    var m := l + Plain(d + 1);
    ShiftedCode(a, d);
    var r := Arguments(o, n + 1);
    var vars, close, pops := GenStmt(l, 0, Vars(d + 1)).0, Then(Closure([a + d + 1]), Pop),
      Discard(m[..a + d + 1], a + 1);
    var body, end := Then(Then(vars, close), Then(CloseUpvalue, pops)), Then(PushValue, Return);
    ExecThen([], o, 0, body, end, r, 0);
    ExecThen([], o, 0, Then(vars, close), Then(CloseUpvalue, pops), r, 0);
    ExecThen([], o, 0, vars, close, r, 0);
    VarsRun([], o, l, d + 1, r, 0);
    var q1 := Exec([], o, 0, vars, r, 0).0;
    ClosesOver([], o, a + d + 1, q1, 0);
    var q2 := Exec([], o, 0, close, q1, 0).0;
    ExecThen([], o, 0, CloseUpvalue, pops, q2, 0);
    CloseTop([], o, q2, 0);
    var q3 := Exec([], o, 0, CloseUpvalue, q2, 0).0;
    StillCaptured(q2, q3, a + d + 1);
    PopsCaptured([], o, m[..a + d + 1], a + 1, a + d + 1, q3, 0);
    var q4 := Exec([], o, 0, pops, q3, 0).0;
    EndKeeps([], o, q4, 0);
    ProcedureBlock(Shifted(a, d), l);
    assert q4 == Exec([], o, 0, body, r, 0).0;
    assert body == GenBlock(l, 0, Shifted(a, d).body.body).0;
    assert RunCall([], o, Shifted(a, n - a), n, 0) == Exec([], o, 0, Then(body, end), r, 0).0;
  }

  lemma StillCaptured(q: Run, r: Run, i: nat)
    requires q.cells.slots != [] && r.cells.slots == q.cells.slots[..|q.cells.slots| - 1]
             && r.cells.captured == q.cells.captured && i < |r.cells.slots|
    ensures Captured(r, i) == Captured(q, i)
  {
  }

  lemma ProcedureBlock(f: Procedure, l: seq<Local>)
    requires f.body.Block? && l == Params(f.params)
    ensures GenProcedure(f) == Then(GenBlock(l, 0, f.body.body).0, Then(PushValue, Return))
  {
    hide GenBlock;
  }

  lemma NothingRun(c: Cells)
    requires WellScoped(c)
    ensures LegalRun(c, []) && Final(c, []) == c
  {
  }

  // On a fiber, each load reads what was stored last in its variable.
  method RunOnFiber(fns: seq<Procedure>, o: Oracle, f: Procedure, fuel: nat, capacity: nat)
    returns (read: seq<Syntax.Value>, ghost q: Run)
    ensures q == RunCall(fns, o, f, |f.params|, fuel) && (q.exact ==> q.legal)
    ensures LegalRun(q.start, q.ops) && read == Loaded(q.ops)
  {
    hide LegalRun, ReadsOf, RunCall, Loaded;
    RunsLegal(fns, o, f, fuel);
    ReadsLast(RunCall(fns, o, f, |f.params|, fuel).ops);
    var fiber := new Fiber(capacity);
    q := RunCall(fns, o, f, |f.params|, fuel);
    read := fiber.Run(RunCall(fns, o, f, |f.params|, fuel).ops);
  }
}
