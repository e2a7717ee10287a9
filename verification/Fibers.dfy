/** Fibers that call, try and yield to each other, and how an error unwinds them. No fiber
    transfers to another. */
module Fibers {
  import opened Options
  import opened Sequences

  datatype Value = Null | Thing(id: nat)

  datatype FiberState = Try | Root | Other

  class Fiber {
    var caller: Fiber?
    var state: FiberState
    var error: Value
    var numFrames: nat
    // The first frame has executed an instruction.
    var started: bool
    var arity: nat
    var stack: seq<Value>

    constructor (arity: nat, state: FiberState)
      ensures caller == null && this.state == state && error == Null && numFrames == 1 && !started
              && this.arity == arity && stack == [Thing(0)]
    {
      caller, this.state, error, numFrames, started, this.arity, stack := null, state, Null, 1, false, arity,
          [Thing(0)];
    }

    // The fiber may still run.
    predicate Live()
      reads this
    {
      error == Null && numFrames > 0
    }

    method SetTop(v: Value)
      requires stack != []
      modifies `stack
      ensures stack == WithTop(old(stack), v)
    {
      stack := stack[|stack| - 1 := v];
    }
  }

  function Succ(s: seq<Fiber>, i: nat): Fiber?
    requires i < |s|
  {
    if i + 1 < |s| then s[i + 1] else null
  }

  // Fiber [t] of the chain is the nearest one that is tried, or none is.
  ghost predicate Nearest(chain: seq<Fiber>, t: nat)
    reads chain`state
  {
    t <= |chain| && (t < |chain| ==> chain[t].state == Try)
        && forall i {:trigger chain[i]} :: 0 <= i < t ==> chain[i].state != Try
  }

  // A step of the program. Fibers are known by the order in which they were created.
  datatype Event =
    | New(arity: nat)
    | Compute(stack: seq<Value>, numFrames: nat)
    | Call(index: nat, trying: bool, value: Option<Value>)
    | Yield(passed: Option<Value>)
    | Return(result: Value)
    | Abort(error: Value)

  class VM {
    var fiber: Fiber?
    // Every fiber there is.
    var fibers: seq<Fiber>
    // The running fiber, the one that called it, and so on, down to the root fiber. A
    // caller is at a lower level.
    ghost var chain: seq<Fiber>
    ghost var level: map<Fiber, int>

    ghost predicate Chained()
      reads `chain, `fibers, chain`caller, chain`state
    {
      ChainOf(chain) && forall f :: f in chain ==> f in fibers
    }

    // Callers are at lower levels, so caller links have no cycle.
    ghost predicate Levelled()
      reads `level, `fibers, fibers`caller
    {
      forall f :: f in fibers ==>
            f in level && (f.caller != null ==> f.caller in fibers && f.caller in level && level[f.caller] < level[f])
    }

    // Only the fibers of the chain run, and they are live. Those that are tried run.
    ghost predicate Running()
      reads `chain, `fibers, fibers, chain
    {
      && (forall f :: f in chain ==> f.Live())
      && (forall f :: f in fibers && f.numFrames > 0 ==> f.stack != [])
      && (forall f :: f in fibers && f.state == Try && f.Live() ==> f in chain)
    }

    ghost predicate Valid()
      reads this, fibers, chain
    {
      fiber == First(chain) && Chained() && Levelled() && Running()
    }

    // A program starts with its root fiber running.
    constructor (arity: nat)
      ensures Valid() && fresh(fibers) && fibers == chain == [fiber]
    {
      var root := new Fiber(arity, Root);
      fiber, fibers, chain, level := root, [root], [root], map[root := 0];
    }

    // Following callers never leads back: each step goes to a lower level.
    lemma {:induction false} Acyclic(path: seq<Fiber>)
      requires Levelled() && |path| > 1 && (forall i {:trigger path[i]} :: 0 <= i < |path| ==> path[i] in fibers)
      requires forall i {:trigger Succ(path, i)} :: 0 <= i < |path| - 1 ==> path[i].caller == Succ(path, i)
      ensures path[|path| - 1] != path[0] && level[path[|path| - 1]] < level[path[0]]
    {
      assert path[|path| - 2].caller == Succ(path, |path| - 2);
      assert path[|path| - 2] in fibers;
      if |path| > 2 {
        var p := path[..|path| - 1];
        assert forall i {:trigger p[i]} :: 0 <= i < |p| ==> p[i] == path[i];
        forall i {:trigger Succ(p, i)} | 0 <= i < |p| - 1 ensures p[i].caller == Succ(p, i) {
          assert path[i].caller == Succ(path, i);
        }
        Acyclic(p);
      }
    }

    // Every live fiber that is tried has a caller to give an error to.
    lemma TriedHasCaller(f: Fiber)
      requires Valid() && f in fibers && f.state == Try && f.Live()
      ensures f.caller != null && f.caller.Live()
    {
      var i :| 0 <= i < |chain| && chain[i] == f;
      assert f.caller == Succ(chain, i);
    }

    lemma Links()
      requires Chained()
      ensures Distinct(chain)
              && forall j {:trigger Succ(chain, j)} :: 0 <= j < |chain| ==> chain[j].caller == Succ(chain, j)
      ensures chain != [] ==> chain[|chain| - 1].state == Root
      ensures forall f :: f in chain ==> f in fibers
    {
    }

    ghost function StackAt(i: nat): seq<Value>
      reads `chain, chain`stack
    {
      if i < |chain| then chain[i].stack else []
    }

    // Of the chain [was], the running fiber and its callers up to the nearest tried one,
    // number [t] from it, have aborted with the error. The fiber that tried that one, with
    // the stack [rest], runs with the error on top. Without one, the program ends.
    ghost predicate AbortsAt(was: seq<Fiber>, t: nat, error: Value, rest: seq<Value>)
      reads this, fibers
    {
      && (forall i {:trigger was[i]} :: 0 <= i < |was| ==> was[i] in fibers) && t <= |was|
         && (t < |was| ==> was[t].state == Try)
      && (forall i {:trigger was[i]} :: 0 <= i < t ==> was[i].state != Try)
      && (forall i {:trigger was[i]} :: 0 <= i <= t && i < |was| ==> was[i].error == error)
      && chain == (if t < |was| then was[t + 1..] else [])
      && (if t + 1 < |was| then fiber == was[t + 1] && OnTop(was[t + 1].stack, rest, error) else fiber == null)
    }

    lemma AbortsAre(was: seq<Fiber>, t: nat, error: Value, rest: seq<Value>)
      requires Distinct(was) && Nearest(was, t) && chain == Beyond(was, t) && fiber == First(chain)
      requires forall f :: f in was ==> f in fibers
      requires (forall f :: f in was && Lost(was, t, f) ==> f.error == error)
               && (fiber != null ==> OnTop(fiber.stack, rest, error))
      ensures AbortsAt(was, t, error, rest)
    {
      LostAt(was, t);
      hide Lost, Distinct;
    }

    // [f] runs, called by the first of [was]. It has [v] as its argument, if it starts and
    // has a parameter, or in the place of its yield. Its stack was [rest].
    ghost predicate Enters(f: Fiber, was: seq<Fiber>, starts: bool, rest: seq<Value>, v: Value)
      reads this, fibers
    {
      && f in fibers && fiber == f && chain == [f] + was && was != [] && f.caller == was[0]
      && if starts then f.stack == if f.arity == 1 then rest + [v] else rest else OnTop(f.stack, rest, v)
    }

    // The first of [was] has left the fiber that called it, with the stack [rest], to go on
    // with [v].
    ghost predicate Leaves(was: seq<Fiber>, rest: seq<Value>, v: Value)
      reads this, fibers
    {
      && (forall i {:trigger was[i]} :: 0 <= i < |was| ==> was[i] in fibers) && was != [] && chain == was[1..]
         && was[0].caller == null
      && if |was| > 1 then fiber == was[1] && OnTop(was[1].stack, rest, v) else fiber == null
    }

    // Aborts the running fiber and those that called it, up to the nearest tried one,
    // at [t].
    method Walk(error: Value) returns (current: Fiber?, ghost t: nat)
      requires Chained() && fiber == First(chain) && fiber != null
      modifies fibers`error, fibers`caller
      ensures current == At(chain, t) && Nearest(chain, t) && Aborted(chain, t, error) && Distinct(chain)
              && (current != null ==> current.error == error)
      ensures forall j {:trigger Succ(chain, j)} :: t <= j < |chain| ==> chain[j].caller == Succ(chain, j)
      ensures forall j {:trigger chain[j]} :: t <= j < |chain| ==>
                chain[j].caller == old(chain[j].caller) && (j > t ==> chain[j].error == old(chain[j].error))
      ensures forall f :: f in fibers && f !in chain ==> f.error == old(f.error) && f.caller == old(f.caller)
    {
      hide Nearest, Chained, Aborted;
      Links();
      NoneYet(chain, error);
      t := 0;
      current := fiber;
      while current != null
        invariant t <= |chain| && current == At(chain, t) && NoneTried(chain, t) && Aborted(chain, t, error)
        invariant forall j {:trigger Succ(chain, j)} :: t <= j < |chain| ==> chain[j].caller == Succ(chain, j)
        invariant forall j {:trigger chain[j]} :: t <= j < |chain| ==>
                    chain[j].caller == old(chain[j].caller) && chain[j].error == old(chain[j].error)
        invariant forall f :: f in fibers && f !in chain ==> f.error == old(f.error) && f.caller == old(f.caller)
        decreases |chain| - t
      {
        assert current == chain[t] && current.caller == Succ(chain, t) && current in chain && current in fibers;
        SetError(chain, t, current, error);
        if current.state == Try { break; }
        var caller := current.caller;
        Unhook(chain, t, current, error);
        current := caller;
        t := t + 1;
      }
      IsNearest(chain, t);
    }

    // Aborts these fibers, and returns the fiber that tried the last of them.
    method Unwind(error: Value) returns (catcher: Fiber?, ghost t: nat)
      requires Chained() && fiber == First(chain) && fiber != null
      modifies fibers`error, fibers`caller
      ensures Nearest(chain, t) && catcher == At(chain, t + 1) && (t < |chain| ==> catcher != null)
      ensures forall f :: f in fibers ==> f.error == if Lost(chain, t, f) then error else old(f.error)
      ensures forall f :: f in fibers ==>
                f.caller == if Lost(chain, t, f) && f != At(chain, t) then null else old(f.caller)
      ensures forall i {:trigger Succ(chain, i)} :: t <= i < |chain| ==> chain[i].caller == Succ(chain, i)
    {
      hide Chained, Aborted, Lost, Distinct;
      Links();
      var current;
      RootUntried(chain);
      current, t := Walk(error);
      assert current != null ==> current.caller == Succ(chain, t);
      LostAt(chain, t);
      AbortedAt(chain, t, error);
      forall f | f in fibers && f in chain
        ensures f.error == (if Lost(chain, t, f) then error else old(f.error)) && f.caller == if Lost(chain, t, f)
                && f != At(chain, t) then null else old(f.caller)
      {
        var i :| 0 <= i < |chain| && chain[i] == f;
      }
      return if current == null then null else current.caller, t;
    }

    // The running fiber has aborted with [error], which goes to the fiber that tried the
    // nearest tried one, at [t], or ends the program.
    method RuntimeError(error: Value) returns (ghost t: nat)
      requires Chained() && fiber == First(chain) && fiber != null && forall f :: f in chain ==> f.stack != []
      modifies `fiber, `chain, fibers`error, fibers`caller, fibers`stack
      ensures Nearest(old(chain), t) && chain == Beyond(old(chain), t) && fiber == First(chain) && Chained()
      ensures forall f :: f in fibers ==> f.error == if Lost(old(chain), t, f) then error else old(f.error)
      ensures forall f :: f in fibers ==>
                f.caller == if Lost(old(chain), t, f) && f != At(old(chain), t) then null else old(f.caller)
      // The error is on top of the stack of the fiber that goes on, and no other stack
      // changes.
      ensures forall f :: f in fibers && f != fiber ==> f.stack == old(f.stack)
      ensures forall f :: f in fibers && f == fiber ==>
                |f.stack| == |old(f.stack)| > 0 && f.stack[|f.stack| - 1] == error
                    && forall i :: 0 <= i < |f.stack| - 1 ==> f.stack[i] == old(f.stack)[i]
    {
      hide Nearest, Lost, ChainOf;
      Links();
      var catcher;
      catcher, t := Unwind(error);
      BeyondChain(chain, t);
      if catcher != null {
        assert catcher in chain;
        catcher.SetTop(error);
      }
      fiber := catcher;
      chain := Beyond(chain, t);
    }

    // The running fiber aborts with [error].
    method Fail(error: Value) returns (ghost t: nat)
      requires Valid() && fiber != null && error != Null
      modifies `fiber, `chain, fibers`error, fibers`caller, fibers`stack
      ensures Valid() && Nearest(old(chain), t) && chain == Beyond(old(chain), t)
      ensures AbortsAt(old(chain), t, error, old(StackAt(t + 1)))
      ensures forall f :: f in fibers ==> f.error == if Lost(old(chain), t, f) then error else old(f.error)
      ensures forall f :: f in fibers ==>
                f.caller == if Lost(old(chain), t, f) && f != At(old(chain), t) then null else old(f.caller)
      ensures forall f :: f in fibers && f != fiber ==> f.stack == old(f.stack)
      ensures forall f :: f in fibers && old(f.error) != Null ==> f.error == old(f.error)
    {
      hide Nearest, ChainOf, At;
      Links();
      t := RuntimeError(error);
      assert fiber != null ==> fiber == old(chain)[t + 1] && fiber in fibers;
      AbortsAre(old(chain), t, error, old(StackAt(t + 1)));
      assert Levelled();
      assert forall f :: f in chain ==> f.Live();
      assert forall f :: f in fibers && f.numFrames > 0 ==> f.stack != [];
    }

    // The frames and stack of the running fiber change, and nothing else.
    method Compute(stack: seq<Value>, numFrames: nat)
      requires Valid() && fiber != null && stack != [] && numFrames > 0
      modifies fiber`stack, fiber`numFrames
      ensures Valid() && fiber.stack == stack && fiber.numFrames == numFrames
    {
      fiber.stack, fiber.numFrames := stack, numFrames;
    }

    // Creates a suspended fiber.
    method NewFiber(arity: nat) returns (f: Fiber)
      requires Valid() && arity <= 1
      modifies `fibers, `level
      ensures Valid() && fresh(f) && fibers == old(fibers) + [f] && f.caller == null && f.Live() && f.state == Other
              && f.arity == arity && !f.started
    {
      f := new Fiber(arity, Other);
      fibers := fibers + [f];
      level := level[f := 0];
    }

    predicate Callable(f: Fiber)
      reads f
    {
      f.Live() && f.caller == null && f.state != Root
    }

    // A fiber without a caller that is not the root is not in the chain.
    lemma Outside(f: Fiber)
      requires Chained() && f.caller == null && f.state != Root
      ensures f !in chain
    {
      forall i {:trigger chain[i]} | 0 <= i < |chain| ensures chain[i] != f {
        assert chain[i].caller == Succ(chain, i);
      }
    }

    // Hooks [f] to the running fiber, which goes to a lower level with its callers.
    method Hook(f: Fiber)
      requires Chained() && Levelled() && fiber == First(chain) && fiber != null && f in fibers && f.caller == null
               && f.state != Root
      modifies f`caller, `level
      ensures f.caller == fiber && f !in chain && Chained() && Levelled()
    {
      Outside(f);
      f.caller := fiber;
      ghost var lower := if level[fiber] >= level[f] then level[fiber] - level[f] + 1 else 0;
      ghost var before := level;
      level := map g | g in level :: if g in chain then level[g] - lower else level[g];
      forall g | g in fibers && g.caller != null ensures g.caller in level && level[g.caller] < level[g] {
        if g in chain {
          var i :| 0 <= i < |chain| && chain[i] == g;
          assert g.caller == Succ(chain, i);
        }
      }
    }

    // The running fiber calls [f]. A finished fiber is hooked before it is found finished.
    method RunFiber(f: Fiber, value: Option<Value>) returns (error: Value)
      requires Valid() && fiber != null && f in fibers && |fiber.stack| > (if value.Some? then 1 else 0)
      modifies `fiber, `chain, `level, f`caller, f`started, f`stack, fiber`stack
      ensures Valid() && (error == Null <==> old(Callable(f))) && error == old(CallError(f))
      ensures error != Null ==>
                fiber == old(fiber) && chain == old(chain) && f.caller == if error == Thing(4) then fiber
                    else old(f.caller)
      ensures error != Null ==>
                fiber.stack == old(fiber.stack) && f.stack == old(f.stack) && f.started == old(f.started)
      ensures error == Null ==>
                fiber == f && chain == [f] + old(chain) && f.caller == old(fiber) && f.started && f != old(fiber)
      ensures error == Null ==>
                old(fiber).stack == old(fiber.stack)[..|old(fiber.stack)| - if value.Some? then 1 else 0]
      // A fiber that starts gets the value as its argument, if it has a parameter. One that
      // goes on gets it in the place of its yield.
      ensures error == Null ==>
                var given := if value.Some? then value.value else Null;
                var n := |old(f.stack)|;
                if old(f.numFrames == 1 && !f.started) then
                  f.stack == if f.arity == 1 then old(f.stack) + [given] else old(f.stack)
                else
                  |f.stack| == n > 0 && f.stack[n - 1] == given
                      && forall i :: 0 <= i < n - 1 ==> f.stack[i] == old(f.stack)[i]
    {
      hide ChainOf;
      if f.error != Null { return Thing(1); }
      if f.caller != null { return Thing(2); }
      if f.state == Root { return Thing(3); }
      Hook(f);
      if f.numFrames == 0 { return Thing(4); }
      Enter(f, value);
      return Null;
    }

    // Goes on with [f], which the running fiber has hooked.
    method Enter(f: Fiber, value: Option<Value>)
      requires Chained() && Levelled() && Running() && fiber == First(chain) && f in fibers && f !in chain
               && f.caller == fiber && f.Live()
      requires fiber != null && |fiber.stack| > (if value.Some? then 1 else 0)
      modifies `fiber, `chain, f`started, f`stack, fiber`stack
      ensures Valid() && fiber == f && chain == [f] + old(chain) && f.started && f != old(fiber)
      ensures old(fiber).stack == old(fiber.stack)[..|old(fiber.stack)| - if value.Some? then 1 else 0]
      ensures f.stack == Entered(old(f.stack), old(f.numFrames == 1 && !f.started), f.arity, value)
    {
      hide ChainOf, Levelled, Entered, Given;
      PassValue(f, value);
      PushChain(f);
      fiber := f;
      chain := [f] + chain;
      assert forall g :: g in chain ==> g.Live();
      assert forall g :: g in fibers && g.numFrames > 0 ==> g.stack != [];
    }

    // The value moves from the stack of the running fiber to that of [f].
    method PassValue(f: Fiber, value: Option<Value>)
      requires fiber != null && f != fiber && |fiber.stack| > (if value.Some? then 1 else 0) && f.stack != []
      modifies f`started, f`stack, fiber`stack
      ensures f.started && f.stack != [] && fiber.stack != []
      ensures fiber.stack == old(fiber.stack)[..|old(fiber.stack)| - if value.Some? then 1 else 0]
      ensures f.stack == Entered(old(f.stack), old(f.numFrames == 1 && !f.started), f.arity, value)
    {
      if value.Some? { fiber.stack := fiber.stack[..|fiber.stack| - 1]; }
      if f.numFrames == 1 && !f.started {
        if f.arity == 1 { f.stack := f.stack + [Given(value)]; }
      } else {
        f.SetTop(Given(value));
      }
      f.started := true;
    }

    lemma PushChain(f: Fiber)
      requires Chained() && f !in chain && f.caller == First(chain) && chain != [] && f in fibers
      ensures ChainOf([f] + chain) && forall g :: g in [f] + chain ==> g in fibers
    {
      var s := [f] + chain;
      forall i {:trigger Succ(s, i)} | 0 <= i < |s| ensures s[i].caller == Succ(s, i) {
        if i > 0 { assert chain[i - 1].caller == Succ(chain, i - 1); }
      }
    }

    // Why a fiber cannot be called.
    function CallError(f: Fiber): Value
      reads f
    {
      if f.error != Null then Thing(1) else if f.caller != null then Thing(2) else if f.state == Root then Thing(3)
      else if f.numFrames == 0 then Thing(4) else Null
    }

    // Fiber.abort: a null error is none.
    method Abort(error: Value) returns (ghost t: nat)
      requires Valid() && fiber != null
      modifies `fiber, `chain, fibers`error, fibers`caller, fibers`stack
      ensures Valid() && (error == Null ==> fiber == old(fiber) && chain == old(chain))
      ensures error != Null ==> Nearest(old(chain), t) && chain == Beyond(old(chain), t)
      ensures error != Null ==> AbortsAt(old(chain), t, error, old(StackAt(t + 1)))
      ensures forall f :: f in fibers ==>
                f.error == if error != Null && Lost(old(chain), t, f) then error else old(f.error)
      ensures forall f :: f in fibers && (error == Null || f != fiber) ==> f.stack == old(f.stack)
      ensures forall f :: f in fibers && old(f.error) != Null ==> f.error == old(f.error)
    {
      hide *;
      if error == Null { return 0; }
      t := Fail(error);
    }

    // fiber.call and fiber.try, with or without a value. A fiber that cannot be called
    // aborts the running one.
    method Call(f: Fiber, trying: bool, value: Option<Value>) returns (ghost t: nat)
      requires Valid() && fiber != null && f in fibers && |fiber.stack| > (if value.Some? then 1 else 0)
      modifies `fiber, `chain, `level, fibers`caller, fibers`error, fibers`state, fibers`started, fibers`stack
      ensures Valid()
              && forall g :: g in fibers ==>
                   g.state == if g == f && trying && old(Callable(f)) then Try else old(g.state)
      ensures old(Callable(f)) ==>
                fiber == f && chain == [f] + old(chain) && f.caller == old(fiber)
                    && forall g :: g in fibers ==> g.error == old(g.error)
      ensures old(Callable(f)) ==>
                Enters(f, old(chain), old(f.numFrames == 1 && !f.started), old(f.stack),
                       if value.Some? then value.value else Null)
      ensures !old(Callable(f)) ==> AbortsAt(old(chain), t, old(CallError(f)), old(StackAt(t + 1)))
      ensures !old(Callable(f)) ==> Nearest(old(chain), t) && chain == Beyond(old(chain), t)
      ensures !old(Callable(f)) ==>
                forall g :: g in fibers ==>
                      g.error == if Lost(old(chain), t, g) then old(CallError(f)) else old(g.error)
      ensures forall f :: f in fibers && old(f.error) != Null ==> f.error == old(f.error)
    {
      hide ChainOf, Levelled, Entered, Nearest, Lost, CallError;
      t := 0;
      var error := RunFiber(f, value);
      if error != Null {
        t := Fail(error);
      } else if trying {
        MarkTried();
      }
    }

    method MarkTried()
      requires Valid() && |chain| > 1
      modifies fiber`state
      ensures Valid() && fiber.state == Try
    {
      assert chain[0] != chain[|chain| - 1];
      fiber.state := Try;
    }

    // Fiber.yield: the fiber that called the running one goes on with the value. When
    // the root fiber yields, the program stops.
    method Yield(value: Option<Value>)
      requires Valid() && fiber != null && |fiber.stack| > (if value.Some? then 1 else 0)
      modifies `fiber, `chain, fibers`caller, fibers`state, fibers`stack
      ensures Valid() && chain == old(chain)[1..] && old(fiber).caller == null && old(fiber).state == Other
      ensures forall f :: f in fibers && f != old(fiber) ==> f.caller == old(f.caller) && f.state == old(f.state)
      ensures Leaves(old(chain), old(StackAt(1)), if value.Some? then value.value else Null)
    {
      Pop();
      hide Chained, Levelled, Running, At, First;
      var current := fiber;
      Suspend();
      if fiber != null {
        GiveTop(Given(value));
        if value.Some? { DropTop(current); }
      }
    }

    // The running fiber is left, and is no longer tried.
    method Suspend()
      requires Valid() && fiber != null
      modifies `fiber, `chain, fiber`caller, fiber`state
      ensures Valid() && fiber == old(At(chain, 1)) && chain == old(chain)[1..]
      ensures old(fiber).caller == null && old(fiber).state == Other && old(fiber) in fibers && old(fiber) != fiber
      ensures fiber != null ==> fiber in fibers
    {
      Pop();
      hide ChainOf, Levelled, At;
      var current := fiber;
      Leave();
      current.state := Other;
      assert forall f :: f in chain ==> f.Live();
      assert forall f :: f in fibers && f.state == Try && f.Live() ==> f in chain;
    }

    // The last frame of the running fiber returns to the fiber that called it.
    method Return(result: Value)
      requires Valid() && fiber != null
      modifies `fiber, `chain, fibers`caller, fibers`numFrames, fibers`stack
      ensures Valid() && chain == old(chain)[1..] && old(fiber).numFrames == 0 && old(fiber).caller == null
      ensures forall f :: f in fibers && f != old(fiber) ==>
                f.caller == old(f.caller) && f.numFrames == old(f.numFrames)
      ensures Leaves(old(chain), old(StackAt(1)), result)
      ensures fiber == null ==> old(fiber).stack == [result]
    {
      Pop();
      hide Chained, Levelled, At, First;
      var current := fiber;
      Finish();
      if fiber == null {
        current.stack := [result];
      } else {
        GiveTop(result);
      }
    }

    // The running fiber is left, and has no frame any more.
    method Finish()
      requires Valid() && fiber != null
      modifies `fiber, `chain, fiber`caller, fiber`numFrames
      ensures Valid() && fiber == old(At(chain, 1)) && chain == old(chain)[1..]
      ensures old(fiber).caller == null && old(fiber).numFrames == 0 && old(fiber) in fibers
      ensures old(fiber) != fiber && old(fiber) !in chain && (fiber != null ==> fiber in fibers)
    {
      Pop();
      hide ChainOf, Levelled, At;
      var current := fiber;
      current.numFrames := 0;
      Leave();
      assert forall f :: f in chain ==> f.Live();
      assert forall f :: f in fibers && f.state == Try && f.Live() ==> f in chain;
    }

    method GiveTop(v: Value)
      requires Valid() && fiber != null
      modifies fiber`stack
      ensures Valid() && |fiber.stack| == |old(fiber.stack)| > 0 && fiber.stack[|fiber.stack| - 1] == v
      ensures forall i :: 0 <= i < |fiber.stack| - 1 ==> fiber.stack[i] == old(fiber.stack)[i]
    {
      assert fiber in chain;
      fiber.SetTop(v);
    }

    method DropTop(f: Fiber)
      requires Valid() && f in fibers && |f.stack| > 1
      modifies f`stack
      ensures Valid() && f.stack == old(f.stack)[..|old(f.stack)| - 1]
    {
      f.stack := f.stack[..|f.stack| - 1];
    }

    // The running fiber is unhooked from the one that called it, which goes on.
    method Leave()
      requires Chained() && Levelled() && fiber == First(chain) && fiber != null
      modifies `fiber, `chain, fiber`caller
      ensures fiber == First(chain) && chain == old(chain)[1..] && Chained() && Levelled() && old(fiber).caller == null
    {
      Pop();
      hide ChainOf;
      var current := fiber;
      fiber := current.caller;
      current.caller := null;
      chain := chain[1..];
    }

    // What the running fiber leaves behind.
    lemma Pop()
      requires Chained() && fiber == First(chain) && chain != []
      ensures fiber in fibers && fiber !in chain[1..] && fiber.caller == First(chain[1..]) == At(chain, 1)
              && ChainOf(chain[1..])
      ensures forall f :: f in chain <==> f == fiber || f in chain[1..]
    {
      assert fiber.caller == Succ(chain, 0);
      BeyondChain(chain, 0);
      assert chain == [fiber] + chain[1..];
      assert forall i {:trigger chain[1..][i]} :: 0 <= i < |chain[1..]| ==> chain[1..][i] == chain[i + 1];
    }

    // ----- Runs -----

    // What every step keeps: fibers that have aborted or finished stay so.
    twostate predicate Kept()
      reads this, fibers
    {
      && |old(fibers)| <= |fibers| && fibers[..|old(fibers)|] == old(fibers)
      && forall i {:trigger fibers[i]} :: 0 <= i < |old(fibers)| ==>
        (old(fibers[i].error) != Null ==> fibers[i].error == old(fibers[i].error))
            && (old(fibers[i].numFrames) == 0 ==> fibers[i].numFrames == 0)
    }

    // The instructions of a call push the receiver and the arguments.
    method PushArguments(value: Option<Value>)
      requires Valid() && fiber != null
      modifies fiber`stack
      ensures Valid() && |fiber.stack| > if value.Some? then 1 else 0
    {
      assert fiber in chain;
      fiber.stack := fiber.stack + [Thing(0)] + if value.Some? then [value.value] else [];
    }

    // A call starts or goes on with the fiber, if it can be called, and otherwise aborts
    // the running one for the first reason why it cannot.
    twostate predicate DidCall(index: nat, trying: bool, value: Option<Value>, t: nat)
      reads this, fibers
    {
      if index >= |old(fibers)| then fiber == old(fiber) && chain == old(chain)
      else
        var f := old(fibers)[index];
        var error := if old(f.error) != Null then Thing(1) else if old(f.caller) != null then Thing(2)
            else if old(f.state) == Root then Thing(3) else if old(f.numFrames) == 0 then Thing(4) else Null;
        if error != Null then AbortsAt(old(chain), t, error, old(StackAt(t + 1)))
        else
          && f in fibers && f.state == (if trying then Try else old(f.state))
          && Enters(f, old(chain), old(f.numFrames == 1 && !f.started), old(f.stack),
                    if value.Some? then value.value else Null)
    }

    // What each event does. If it aborts fibers, the last of them is number [t] of the
    // chain.
    twostate predicate Did(e: Event, t: nat)
      reads this, fibers
    {
      match e
      case New(arity) =>
        if arity > 1 then AbortsAt(old(chain), t, Thing(5), old(StackAt(t + 1)))
        else
          && fiber == old(fiber) && chain == old(chain) && |fibers| == |old(fibers)| + 1
          && var f := fibers[|fibers| - 1];
             f.Live() && f.caller == null && f.state == Other && f.arity == arity && !f.started
      case Compute(stack, numFrames) =>
        && fiber == old(fiber) && chain == old(chain) && fibers == old(fibers)
        && (fiber in fibers && stack != [] && numFrames > 0 ==> fiber.stack == stack && fiber.numFrames == numFrames)
      case Call(index, trying, value) => DidCall(index, trying, value, t)
      case Yield(value) =>
        Leaves(old(chain), old(StackAt(1)), if value.Some? then value.value else Null)
        && old(chain)[0].state == Other
      case Return(result) => Leaves(old(chain), old(StackAt(1)), result) && old(chain)[0].numFrames == 0
      case Abort(error) =>
        if error == Null then fiber == old(fiber) && chain == old(chain)
            else AbortsAt(old(chain), t, error, old(StackAt(t + 1)))
    }

    method Execute(e: Event) returns (ghost t: nat)
      requires Valid() && fiber != null
      modifies `fiber, `fibers, `chain, `level, fibers
      ensures Valid() && Kept() && fresh(Members(fibers) - Members(old(fibers)))
      ensures Did(e, t)
    {
      hide Valid, AbortsAt, Leaves, Enters, CallError, Callable, StackAt;
      t := 0;
      match e
      case New(arity) => t := ExecuteNew(arity);
      case Compute(stack, numFrames) => ExecuteCompute(stack, numFrames);
      case Call(index, trying, value) => t := ExecuteCall(index, trying, value);
      case Yield(value) => ExecuteYield(value);
      case Return(result) => ExecuteReturn(result);
      case Abort(error) => t := Abort(error);
    }

    method ExecuteNew(arity: nat) returns (ghost t: nat)
      requires Valid() && fiber != null
      modifies `fiber, `fibers, `chain, `level, fibers
      ensures Valid() && Kept() && fresh(Members(fibers) - Members(old(fibers))) && Did(New(arity), t)
    {
      hide ChainOf, Levelled, Nearest, At, Lost, AbortsAt;
      t := 0;
      if arity > 1 {
        t := Abort(Thing(5));
      } else {
        var _ := NewFiber(arity);
      }
    }

    method ExecuteCompute(stack: seq<Value>, numFrames: nat)
      requires Valid() && fiber != null
      modifies fibers`stack, fibers`numFrames
      ensures Valid() && Kept() && Did(Event.Compute(stack, numFrames), 0)
    {
      hide ChainOf, Levelled;
      assert fiber in chain;
      if stack != [] && numFrames > 0 { Compute(stack, numFrames); }
    }

    method ExecuteCall(index: nat, trying: bool, value: Option<Value>) returns (ghost t: nat)
      requires Valid() && fiber != null
      modifies `fiber, `chain, `level, fibers
      ensures Valid() && Kept() && DidCall(index, trying, value, t)
    {
      hide Valid, Nearest, Lost, AbortsAt, Enters;
      OthersInChain();
      t := 0;
      PushArguments(value);
      if index < |fibers| {
        CallableOutside(fibers[index]);
        t := Call(fibers[index], trying, value);
      }
    }

    lemma OthersInChain()
      requires Valid() && fiber != null
      ensures fiber in chain && fiber in fibers && forall j :: 0 < j < |chain| ==> chain[j] != fiber
    {
      Links();
    }

    lemma CallableOutside(f: Fiber)
      requires Valid() && fiber != null
      ensures Callable(f) ==> f != fiber
    {
      Links();
      if Callable(f) { Outside(f); }
    }

    method ExecuteYield(value: Option<Value>)
      requires Valid() && fiber != null
      modifies `fiber, `chain, `level, fibers
      ensures Valid() && Kept() && Did(Event.Yield(value), 0)
    {
      hide ChainOf, Levelled, Nearest, Lost, Leaves;
      Links();
      assert fiber in chain && (|chain| > 1 ==> chain[1] in fibers && chain[1] != fiber);
      PushArguments(value);
      Yield(value);
    }

    method ExecuteReturn(result: Value)
      requires Valid() && fiber != null
      modifies `fiber, `chain, `level, fibers
      ensures Valid() && Kept() && Did(Event.Return(result), 0)
    {
      hide ChainOf, Levelled, Nearest, Lost, Leaves;
      assert fiber in chain;
      Return(result);
    }

    // Any run, until the program stops: what has aborted or finished never runs again.
    method Run(events: seq<Event>)
      requires Valid()
      modifies `fiber, `fibers, `chain, `level, fibers
      ensures Valid() && Kept() && fresh(Members(fibers) - Members(old(fibers)))
      ensures fiber != null ==> fiber.Live() && forall f :: f in old(fibers) && old(!f.Live()) ==> f != fiber
    {
      var i := 0;
      while i < |events| && fiber != null
        invariant i <= |events| && Valid() && Kept() && fresh(Members(fibers) - Members(old(fibers)))
      {
        var _ := Execute(events[i]);
        i := i + 1;
      }
    }
  }

  // The value that a call passes.
  function Given(value: Option<Value>): Value {
    if value.Some? then value.value else Null
  }

  // The stack of a called fiber: the value goes to the parameter, if it starts, and is
  // the result of the yield, if it goes on.
  function Entered(stack: seq<Value>, starts: bool, arity: nat, value: Option<Value>): seq<Value> {
    if starts then (if arity == 1 then stack + [Given(value)] else stack) else WithTop(stack, Given(value))
  }

  function Beyond(s: seq<Fiber>, t: nat): seq<Fiber> {
    if t < |s| then s[t + 1..] else []
  }

  // [f] is one of the fibers up to [t].
  predicate Lost(s: seq<Fiber>, t: nat, f: Fiber) {
    f in s && f !in Beyond(s, t)
  }

  lemma LostAt(s: seq<Fiber>, t: nat)
    requires Distinct(s)
    ensures forall i {:trigger s[i]} :: 0 <= i < |s| ==> (Lost(s, t, s[i]) <==> i <= t)
  {
    var b := Beyond(s, t);
    forall i {:trigger s[i]} | 0 <= i < |s| ensures Lost(s, t, s[i]) <==> i <= t {
      if i > t { assert b[i - t - 1] == s[i]; }
    }
  }

  function WithTop(s: seq<Value>, v: Value): seq<Value> {
    if s == [] then [] else s[|s| - 1 := v]
  }

  // [s] is [rest] with [v] on top.
  predicate OnTop(s: seq<Value>, rest: seq<Value>, v: Value) {
    |s| == |rest| > 0 && s[|s| - 1] == v && forall i :: 0 <= i < |s| - 1 ==> s[i] == rest[i]
  }

  function First(s: seq<Fiber>): Fiber? {
    if s == [] then null else s[0]
  }

  function At(s: seq<Fiber>, i: nat): Fiber? {
    if i < |s| then s[i] else null
  }

  // Each fiber is called by the next, and the last is the root.
  ghost predicate ChainOf(s: seq<Fiber>)
    reads s`caller, s`state
  {
    && Distinct(s) && (forall i {:trigger Succ(s, i)} :: 0 <= i < |s| ==> s[i].caller == Succ(s, i))
    && (s != [] ==> s[|s| - 1].state == Root)
  }

  lemma BeyondChain(s: seq<Fiber>, t: nat)
    requires Distinct(s) && (forall i {:trigger Succ(s, i)} :: t < i < |s| ==> s[i].caller == Succ(s, i))
             && (s != [] ==> s[|s| - 1].state == Root)
    ensures ChainOf(Beyond(s, t)) && forall f :: f in Beyond(s, t) ==> f in s
  {
    var b := Beyond(s, t);
    if t < |s| {
      assert forall i {:trigger b[i]} :: 0 <= i < |b| ==> b[i] == s[t + 1 + i];
      forall i {:trigger Succ(b, i)} | 0 <= i < |b| ensures b[i].caller == Succ(b, i) {
        assert s[t + 1 + i].caller == Succ(s, t + 1 + i);
      }
    }
  }

  ghost function Members(s: seq<Fiber>): set<Fiber> {
    set f | f in s
  }

  method SetError(ghost chain: seq<Fiber>, ghost t: nat, f: Fiber, error: Value)
    requires Distinct(chain) && t < |chain| && f == chain[t] && Aborted(chain, t, error)
    modifies f`error
    ensures f.error == error && Aborted(chain, t, error)
  {
    f.error := error;
  }

  method Unhook(ghost chain: seq<Fiber>, ghost t: nat, f: Fiber, error: Value)
    requires Distinct(chain) && t < |chain| && f == chain[t] && Aborted(chain, t, error) && f.error == error
    modifies f`caller
    ensures f.caller == null && Aborted(chain, t + 1, error)
  {
    f.caller := null;
  }

  lemma NoneYet(chain: seq<Fiber>, error: Value)
    ensures Aborted(chain, 0, error)
  {
  }

  // The first [t] fibers are aborted and unhooked.
  ghost predicate Aborted(before: seq<Fiber>, t: nat, error: Value)
    reads before`error, before`caller
  {
    forall j {:trigger before[j]} :: 0 <= j < |before| && j < t ==> before[j].error == error && before[j].caller == null
  }

  ghost predicate NoneTried(chain: seq<Fiber>, t: nat)
    reads chain`state
  {
    t <= |chain| && forall i {:trigger chain[i]} :: 0 <= i < t ==> chain[i].state != Try
  }

  lemma IsNearest(chain: seq<Fiber>, t: nat)
    requires NoneTried(chain, t) && (t < |chain| ==> chain[t].state == Try)
    ensures Nearest(chain, t)
  {
  }

  lemma AbortedAt(chain: seq<Fiber>, t: nat, error: Value)
    requires Distinct(chain) && Aborted(chain, t, error)
    ensures forall f :: Lost(chain, t, f) && f != At(chain, t) ==> f.error == error && f.caller == null
    ensures forall f :: Lost(chain, t, f) ==> f in chain
  {
    LostAt(chain, t);
    hide Lost, Distinct;
    forall f | f in chain && Lost(chain, t, f) && f != At(chain, t) ensures f.error == error && f.caller == null {
      var i :| 0 <= i < |chain| && chain[i] == f;
    }
    LostIn(chain, t);
  }

  lemma LostIn(chain: seq<Fiber>, t: nat)
    ensures forall f :: Lost(chain, t, f) ==> f in chain
  {
  }

  // The root fiber is last, so a tried fiber has a caller.
  lemma RootUntried(chain: seq<Fiber>)
    requires chain != [] ==> chain[|chain| - 1].state == Root
    ensures forall t {:trigger chain[t]} :: 0 <= t < |chain| && chain[t].state == Try ==> t + 1 < |chain|
  {
  }
}
