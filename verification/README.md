# Verified models of the Wren virtual machine and of uthash

carrica embeds two C libraries that carry its hard algorithms: Wren 0.4.0, a complete
language runtime, and uthash, a hash table made of macros. This project models their
central parts in Dafny and proves what they are for. `dafny verify dfyconfig.toml`
checks it all.

## What is modelled

**The compiler and the interpreter.** `Syntax` has tokens, trees and the Pratt parser;
`Pratt` the printer that it inverts, and `Statements` the one for statements. `Grammar`
says which operators bind tighter. `Semantics` evaluates trees directly. `CodeGen` is
the code of a tree, and `Interpreter` the bytecode machine for a call frame.
`SimulateExpr`, `SimulateStmt` and `Correctness` prove that code and tree agree,
`Meaning` what compiled operators and statements do, and `Heights` that each instruction
has one stack height, within the compiler's count, which `Counting` reads off the emitter.
`Compilation` is the compiler as it is: a class that reads tokens once, emits bytes,
patches jumps and rescans loop bodies for breaks; `LoopPatching` and `Emission` prove
that the result is the code of the parsed tree, `Programs` puts the pieces together, and
`Limits` shows what happens beyond the limits that are not checked.
The fragment has literals, names, unary and binary operators, getters and setters
without argument lists, `&&`, `||`, `?:`, assignment, `var`, blocks, `if`, `while`,
`for`, `break`, `continue` and `return`. A method call is a function of the world, the
method and the arguments, so it may do anything but change the caller's locals.

**Closures.** `Closures` finds the variables a function closes over and records them in
every function in between. `Upvalues` is the fiber's list of open upvalues against one
heap cell for each variable. `Captures` proves what that needs of the compiler: the
variables that it pops without closing them have not been captured.

**Classes.** `Binding` shifts field operands past inherited fields. `ClassBinding` does
it in place, and `MethodMachine` proves that the bound method does what it did before.
`Rebinding` is about methods that are bound more than once.

**Fibers and memory.** `Fibers` is the chain of callers with its error unwinding;
`Collector` the mark and sweep collector over a heap of linked objects.

**Tables.** `MapTable` is Wren's open-addressing map. `Uthash` is uthash's two doubly
linked lists through the same nodes, and `MergeSort` what its sort computes.

**Strings and samples.** `StringFind`, `Utf8`, `Slicing` and `Splitting` are search,
encoding, slicing and splitting; `Sampling` is Floyd's algorithm and the Fisher-Yates
shuffle, with the random generator as a list of choices.

`Bytecode`, `Slots`, `Bytes`, `Bits`, `Sequences` and `Options` hold what several of these share.

## Where the code does not do what it means to

Each of these is kept as it is.

* `patchJump` compares the distance with 65536 instead of 65535, so it accepts a jump of
  exactly 2^16 bytes and encodes it as 0. `Programs.LongestJumpFails` is a program that
  is compiled without an error and returns the wrong value; `Programs.PatchedJumpLands`
  is the exact condition.
* The distance of a backward jump is never checked. A comment says that the jump over the
  body would report it, but that does not span the condition. `Limits.LoopLands`,
  `Limits.ForLands` and `Limits.ContinueLands` are the exact conditions, and
  `Limits.LongLoopFails` is an accepted loop whose jump back goes to its own test: that
  takes the receiver for the condition, and the next time finds nothing on the stack.
* The number of method symbols is never checked. `Limits.CallReads` is the exact condition,
  and `Limits.LastGetterFails` an accepted body that calls the wrong method.
* A for statement checks that two more locals fit, and then adds three. With 254 locals the
  third is written past the end of their array (`Limits.ThirdLocalFails`).
  `Programs.LocalsExact` is the exact condition. The model records the overrun, and says
  nothing of what it overwrites.
* The number of upvalues of a function is never checked either. The 257th is written past
  the end of their array (`Closures.ManyUpvalues`); the model records it
  (`Closures.Compiler.AddedOnce`).
* A method's code belongs to the code that defines its class, so it is bound again each time
  that code runs, and also when that code is in a method which is bound.
  `Rebinding.Rebound` is the exact condition under which the method is still right, and
  `Rebinding.SecondDefinitionFails` and `Rebinding.SecondSuperclassFails` are methods that
  are not.
* The shift table of the string search has 255 entries. A byte 255 reads or writes past
  its end, which the model reports as an outcome of its own. `StringFind.Find` is the exact
  condition; without a byte 255 it never happens (`StringFind.NeverHits255`), and UTF-8
  has none. `StringFind.HitsExamples` has inputs on either side.
* A slice that visits bytes that are not UTF-8 may leave allocated bytes unwritten
  (`Slicing.WrittenFits`, `Slicing.SliceUnwritten`), or come to a code point above
  0x10ffff, which is declared unreachable and is reported as an outcome of its own.
* A function can be called with more arguments than it has parameters. The extra ones stay
  on the stack, where the compiler expects the first locals, so every local is in another
  slot than the code of the function uses. `Captures.ExtraArguments` shows that then, and
  only then, a captured variable can be popped.
* `blackenForeign` marks nothing, not even the object's class, which its finalizer reads
  (`Collector.ForeignExample`; `Collector.ClassesKept` is the exact condition).
* Calling a finished fiber hooks it to its caller before the error is raised, and a tried
  fiber that aborts stays hooked to the fiber that tried it. Neither link is followed
  again, and `Fibers.VM.Acyclic` covers both.

## Model

| member | source | states |
|---|---|---|
| Pratt.ParsePrint | lib/wren/src/vm/wren_compiler.c:2749-2851 | parsing what the minimal-parenthesis printer prints of any expression tree, before any token that ends an expression, gives that tree and stops there |
| Pratt.ParsePrinted | lib/wren/src/vm/wren_compiler.c:2824-2851 | at every precedence, parsing a printed operand and then the infix operators is the same as continuing from the tree itself |
| Pratt.PrintInjective | lib/wren/src/vm/wren_compiler.c:2749-2851 | no two expression trees print alike, so the parentheses that the precedence table requires are enough |
| Pratt.ParenthesesNeeded | lib/wren/src/vm/wren_compiler.c:2824-2851 | and no parentheses are superfluous: an operand printed with them at some precedence is not read back at that precedence without them, prefix operators aside, which are read at any |
| Grammar.TwoInfixes | lib/wren/src/vm/wren_compiler.c:2749-2822 | for every two infix operators p and q and all names, `a p b q c` is read as a p (b q c) if and only if q is in a tighter row of the grammar, whose rows are sets of operators, or p and q are both the same logical operator; otherwise as (a p b) q c |
| Grammar.WithConditional | lib/wren/src/vm/wren_compiler.c:1708-1730 | every infix operator binds tighter than ?: in each of its three operands, and ?: groups to the right |
| Grammar.WithPrefix | lib/wren/src/vm/wren_compiler.c:2749-2822 | a prefix operator takes one operand with its calls, and no infix operator, on either side of any |
| Grammar.WithCall | lib/wren/src/vm/wren_compiler.c:1708-1730 | a call binds tighter than every infix operator and than ?:, and calls chain to the left |
| Grammar.WithAssignment | lib/wren/src/vm/wren_compiler.c:2824-2851 | the right side of an assignment to a variable or by a setter is everything that follows |
| Statements.ReadWritten | lib/wren/src/vm/wren_compiler.c:3175-3263 | reading what the statement printer writes of any statement gives that statement and stops there; after one that ends in an if without else, no else may follow |
| Statements.ReadWritable | lib/wren/src/vm/wren_compiler.c:3175-3263 | and the printer can write every statement that is read, so an else belongs to the nearest if |
| Statements.ReadBody | lib/wren/src/vm/wren_compiler.c:1771-1797 | the same for the braces of a body or a block, with one definition to a line |
| Statements.ReadResult | lib/wren/src/vm/wren_compiler.c:1771-1797 | braces around one expression on the same line are a body that gives its value |
| Bytecode.ShortRoundTrip | lib/wren/src/vm/wren_compiler.c:1337-1341 | a 16-bit operand reads back as the number written if and only if that number is below 2^16 |
| Bytecode.LengthPrefix | lib/wren/src/vm/wren_compiler.c:2862-2964 | the length of a whole instruction does not depend on the code after it |
| Bytecode.InOrder | lib/wren/src/vm/wren_opcodes.h:15-217 | the instructions have the numbers of their order in the list |
| Bytecode.EffectNumbers | lib/wren/src/vm/wren_opcodes.h:15-217 | the stack effect of each instruction, by its number |
| CodeGen.StmtSize | lib/wren/src/vm/wren_compiler.c:3123-3263 | the code of a statement has the same length wherever it is put and whatever loop it is in, so every jump distance is known in advance |
| Interpreter.EndsOnce | lib/wren/src/vm/wren_vm.c:826-1390 | the interpreter is deterministic: two runs from one state that end have the same length and the same end |
| Interpreter.EndsBeforeRuns | lib/wren/src/vm/wren_vm.c:826-1390 | a run that ends is the longest run from its start |
| SimulateExpr.SimExpr | lib/wren/src/vm/wren_vm.c:925-1207 | the code of an expression, at any offset and above any temporaries, runs to its end with exactly one more value, the one direct evaluation gives, the same locals and the same world, or aborts when evaluation does, never above the given height |
| SimulateExpr.SimCond | lib/wren/src/vm/wren_compiler.c:2556-2581 | the code of a conditional evaluates exactly one of its branches, the one the condition selects, and leaves its value |
| SimulateExpr.SimLogical | lib/wren/src/vm/wren_compiler.c:2536-2554 | the code of the logical operators short-circuits: the left value is kept exactly when it decides, and otherwise it is dropped and the right one evaluated |
| SimulateStmt.SimStmt | lib/wren/src/vm/wren_vm.c:925-1262 | the code of a statement does what its evaluation does for every outcome: normal end, break to the end of the loop, continue to its start with the loop's locals discarded, return, abort; without enough fuel it runs at least that many steps |
| SimulateStmt.SimLoop | lib/wren/src/vm/wren_compiler.c:2968-3023 | a while loop's code repeats test and body as evaluation does, and its backward jump lands at the start of the loop |
| SimulateStmt.SimFor | lib/wren/src/vm/wren_compiler.c:3025-3121 | a for loop's code keeps the sequence and the iterator in two hidden locals and calls iterate and iteratorValue in turn, as evaluation does |
| Correctness.CompilerCorrect | lib/wren/src/vm/wren_vm.c:925-1262 | for every function body of the fragment, its code returns (or aborts with) a result and world if and only if direct evaluation does, and a run ends in no other way |
| Correctness.StackSafe | lib/wren/src/vm/wren_vm.h:178-196 | at every state that the code of a function reaches, the stack is below the arguments plus the compiler's maxSlots, the space that a call reserves |
| Heights.BodyFits | lib/wren/src/vm/wren_opcodes.h:15-217 | every instruction of a compiled body leads, by its stack effect and along every jump, to instructions that start at exactly the height it leaves, so an instruction has one height on all paths |
| Heights.ReachFits | lib/wren/src/vm/wren_opcodes.h:15-217 | where instructions fit together so, every run that starts at the recorded height is at the recorded height at each state |
| Heights.CountedBody | lib/wren/src/vm/wren_compiler.c:1324-1334 | at each instruction the height above the arguments is below the count of slots there, which is at most maxSlots, although ?: and return make it overcount |
| Heights.HeightKnown | lib/wren/src/vm/wren_compiler.c:1324-1334 | at every state of every run an instruction starts, the stack has the height known for that instruction, and above the arguments that is below the count there, which is at most maxSlots |
| Counting.LogBodyIs | lib/wren/src/vm/wren_compiler.c:1324-1334 | the count at each instruction is the numSlots of the emitter in the state in which it emits that instruction |
| Counting.CounterKnown | lib/wren/src/vm/wren_compiler.c:1324-1334 | so at every state of every run the height above the arguments is below what numSlots was when the instruction was emitted, which is at most maxSlots |
| Slots.PeakOverHeight | lib/wren/src/vm/wren_compiler.c:1324-1334 | the compiler's running count of slots, which overcounts ?:, is at least the height that evaluating the expression needs |
| Slots.PeakOverHeightStmt | lib/wren/src/vm/wren_compiler.c:1324-1334 | the same for statements, although return and branches make the count drift from the height |
| Slots.CountExact | lib/wren/src/vm/wren_compiler.c:1324-1334 | the count goes wrong by exactly one for each ?: of an expression, and where there is none it gets exactly as high as the stack |
| Slots.CountExactStmt | lib/wren/src/vm/wren_compiler.c:1324-1334 | over a statement it changes by the locals that come into scope, and by one for each ?: and each return |
| Correctness.SlotsReserved | lib/wren/src/vm/wren_compiler.c:1661-1707 | the slots that a call reserves for the body exceed the height that its evaluation needs, its declared variables included |
| Meaning.TestRuns | lib/wren/src/vm/wren_vm.c:1164-1170 | wherever it stands, the conditional jump after a condition is taken if and only if the condition is null or false |
| Meaning.CondRuns | lib/wren/src/vm/wren_vm.c:1164-1170 | the code of `c ? y : n`, and its evaluation, takes n if and only if the value of c is null or false |
| Meaning.AndRuns | lib/wren/src/vm/wren_vm.c:1173-1189 | the code of `a && b` gives the value of a, and leaves b alone, if and only if that is null or false |
| Meaning.OrRuns | lib/wren/src/vm/wren_vm.c:1191-1207 | the code of the logical or gives the value of its left operand if and only if that is neither null nor false |
| Meaning.IfElseRuns | lib/wren/src/vm/wren_vm.h:246-249 | the code of an if statement takes its else branch if and only if the condition is null or false |
| Meaning.IfThenRuns | lib/wren/src/vm/wren_vm.h:246-249 | without an else it then does nothing |
| Meaning.WhileRuns | lib/wren/src/vm/wren_compiler.c:3154-3167 | the code of a while statement ends, if and only if the condition is null or false, and otherwise goes on with its body and the loop again |
| Meaning.BreakRuns | lib/wren/src/vm/wren_compiler.c:3177-3195 | a loop whose body is break tests its condition once |
| Meaning.ContinueRuns | lib/wren/src/vm/wren_compiler.c:3196-3212 | a loop whose body is continue tests its condition again |
| Meaning.ForRuns | lib/wren/src/vm/wren_compiler.c:3025-3121 | a for statement calls iterate(_) with the sequence and null first; it has no element if and only if that gives null or false; otherwise its variable is what iteratorValue(_) gives for the sequence and the iterator |
| Meaning.AllSpelled | lib/wren/src/vm/wren_compiler.c:2749-2822 | every binary operator of the fragment has a spelling, as a method of one argument |
| Meaning.BinaryRuns | lib/wren/src/vm/wren_compiler.c:2749-2822 | the code of a binary operator calls the method spelled like it, one of 19, on its left operand with its right one |
| Meaning.UnaryRuns | lib/wren/src/vm/wren_compiler.c:2749-2822 | a prefix operator calls the method without arguments named `-`, `!` or `~` |
| Meaning.GetRuns | lib/wren/src/vm/wren_compiler.c:2079-2101 | a getter calls the method of its name without arguments |
| Meaning.SetRuns | lib/wren/src/vm/wren_compiler.c:2079-2101 | a setter calls the one with =(_) after it, with the receiver and then the value |
| Meaning.LocalVariable | lib/wren/src/vm/wren_compiler.c:1532-1546 | a name that is a local has the value of the last local of that name |
| Meaning.ModuleVariable | lib/wren/src/vm/wren_compiler.c:1636-1645 | any other name is a variable of the module: null before it is assigned, then what was assigned; no other changes |
| LoopPatching.PatchExact | lib/wren/src/vm/wren_compiler.c:2994-3023 | patching a loop turns every break placeholder, which is where the walk finds CODE_END at an instruction start, into a jump, and changes no other byte |
| LoopPatching.BreakLands | lib/wren/src/vm/wren_compiler.c:3009-3018 | the jump put there reads back as a jump to the end of the loop if and only if its distance is below 2^16 |
| LoopPatching.PatchStmt | lib/wren/src/vm/wren_compiler.c:2994-3023 | patching the code of a statement compiled with placeholders gives the code compiled with the loop's end known, whatever loops are nested in it, whose breaks are left alone |
| LoopPatching.PlainStmt | lib/wren/src/vm/wren_compiler.c:2862-2964 | code whose breaks are resolved is whole instructions with no placeholder, so an outer loop's walk passes through it unchanged |
| LoopPatching.WalkConcat | lib/wren/src/vm/wren_compiler.c:2862-2964 | the walk over two pieces of code in a row visits the instructions of each, and patches each on its own |
| Emission.StableExpr | lib/wren/src/vm/wren_compiler.c:496-529 | code does not change when later constants, method symbols and module variables are added to the tables |
| Emission.GrowCovers | lib/wren/src/vm/wren_compiler.c:496-529 | the tables only grow, and after an expression hold everything that its code refers to |
| Emission.GrowCoversStmt | lib/wren/src/vm/wren_compiler.c:1853-1857 | the same for statements |
| Emission.EmitCond | lib/wren/src/vm/wren_compiler.c:2556-2581 | emitting condition, branch, jump, patch, branch, patch in one pass gives the code of the conditional |
| Emission.EmitIfElse | lib/wren/src/vm/wren_compiler.c:3123-3152 | the two patched forward jumps of an if statement give the code of the statement, jumps around both branches included |
| Emission.EmitWhile | lib/wren/src/vm/wren_compiler.c:3154-3167 | the start, test, body and end of a while loop, with its placeholders patched afterwards, give the code of the loop |
| Emission.EmitFor | lib/wren/src/vm/wren_compiler.c:3025-3121 | hidden locals, iteration calls, loop variable, body, end and discarded locals give the code of the for statement |
| Compilation.Compiler.constructor | lib/wren/src/vm/wren_compiler.c:532-588 | a new compiler has no code, one slot in use, the given slot names as its scope and no error |
| Compilation.Compiler.ParsePrecedence | lib/wren/src/vm/wren_compiler.c:2824-2851 | in one pass over the tokens: an error exactly when they do not parse or the program breaks a limit, that of 64 characters for the name of a method among them, and otherwise the rest of the tokens, and output equal to the tables, code and slot counts of the parsed tree; an unknown name is a new variable of the module while there is room |
| Compilation.Compiler.Logical | lib/wren/src/vm/wren_compiler.c:2536-2554 | the code of the logical operators from tokens, whose jump is patched after the right operand |
| Compilation.Compiler.Conditional | lib/wren/src/vm/wren_compiler.c:2556-2581 | the code of ?: from tokens, with both jumps patched |
| Compilation.Compiler.Statement | lib/wren/src/vm/wren_compiler.c:3175-3263 | compiles one statement: an error exactly when it does not parse or is not accepted, otherwise the output and scope of the parsed statement |
| Compilation.Compiler.Definition | lib/wren/src/vm/wren_compiler.c:3727-3760 | the same for a definition: a variable or a statement |
| Compilation.Compiler.VariableDefinition | lib/wren/src/vm/wren_compiler.c:3700-3722 | a var definition evaluates its initializer, null if there is none, before the variable is in scope |
| Compilation.Compiler.DeclareVariable | lib/wren/src/vm/wren_compiler.c:1394-1456 | an error exactly when the name is longer than 64 characters, is declared in the same scope, or the function already has 256 locals; otherwise the variable gets the next slot |
| Compilation.Compiler.AddLocal | lib/wren/src/vm/wren_compiler.c:1381-1389 | appends a local, even where the array of 256 is full, which is recorded as an overrun |
| Compilation.Compiler.BlockStatement | lib/wren/src/vm/wren_compiler.c:1771-1797 | a block's locals are popped at its end, and its code and scope are those of the parsed block |
| Compilation.Compiler.DiscardLocals | lib/wren/src/vm/wren_compiler.c:1492-1517 | emits one pop for each local that is deeper than the scope, and tells how many, without forgetting them |
| Compilation.Compiler.PopScope | lib/wren/src/vm/wren_compiler.c:1522-1528 | forgets exactly those locals, and counts their slots back |
| Compilation.Compiler.IfStatement | lib/wren/src/vm/wren_compiler.c:3123-3152 | compiles an if statement with or without else |
| Compilation.Compiler.WhileStatement | lib/wren/src/vm/wren_compiler.c:3154-3167 | compiles a while statement |
| Compilation.Compiler.ForStatement | lib/wren/src/vm/wren_compiler.c:3025-3121 | compiles a for statement with its two hidden locals and its variable, and records whether the variable is written past the end of the array of locals, which nothing checks |
| Compilation.Compiler.PatchJump | lib/wren/src/vm/wren_compiler.c:1756-1764 | writes the distance to the end of the code into the two bytes of a jump, and reports an error exactly when it is above 2^16 |
| Compilation.Compiler.EndLoop | lib/wren/src/vm/wren_compiler.c:2994-3023 | closes a loop: backward jump, patched exit jump and placeholders, and the enclosing loop current again; an error exactly when the exit jump is too long |
| Compilation.Compiler.PatchBreakJumps | lib/wren/src/vm/wren_compiler.c:3005-3020 | the walk over a loop body patches each placeholder in place and nothing else, and reports an error exactly when one of them is too far from the end |
| Compilation.Compiler.FinishBody | lib/wren/src/vm/wren_compiler.c:1803-1822 | compiles a whole function body: an error exactly when it does not parse or is not accepted, otherwise the code, tables and maxSlots of the parsed body, and whether its locals overran their array |
| Programs.CompiledFunctionCorrect | lib/wren/src/vm/wren_compiler.c:1803-1822 | for every token sequence that is accepted, whose locals do not overrun their array and whose jumps and method symbols fit 16 bits, running the code that is compiled from it returns a result and world if and only if evaluating the parsed body does, and never exceeds the reserved stack |
| Programs.CompileFunction | lib/wren/src/vm/wren_compiler.c:1803-1822 | compiles tokens in one call: an error exactly when they do not parse or are not accepted; the locals overrun exactly when a for statement is entered with more than 253; and otherwise, with jumps and symbols below 2^16, the code returned is correct for all calls, worlds and arguments |
| Programs.AcceptedCompiles | lib/wren/src/vm/wren_compiler.c:1803-1822 | the compiler's own checks are enough for the assumptions of the correctness theorem, jump distances, method symbols and the third local of a for statement aside |
| Programs.LocalsExact | lib/wren/src/vm/wren_compiler.c:3073-3081 | where every check passes, all locals are in their array if and only if each for statement is entered with at most 253 locals; the check allows 254 |
| Limits.ThirdLocalFails | lib/wren/src/vm/wren_compiler.c:3107-3110 | with 254 locals a for statement is accepted, its variable is written past the end of the array, and the instruction that should load it loads the first local |
| Programs.GrowBounded | lib/wren/src/vm/wren_compiler.c:496-529 | the checks keep every table within 2^16 entries, except the method symbols, which are not checked |
| Programs.PatchedJumpLands | lib/wren/src/vm/wren_compiler.c:1756-1764 | a forward jump that passes the check lands where it should if and only if its distance is below 2^16; the check lets 2^16 itself through |
| Limits.LoopLands | lib/wren/src/vm/wren_compiler.c:2994-3003 | the jump at the end of a while statement lands at its start if and only if all of its code is shorter than 2^16 bytes, condition included |
| Limits.ForLands | lib/wren/src/vm/wren_compiler.c:2994-3003 | the same for a for statement, from where its loop starts |
| Limits.ContinueLands | lib/wren/src/vm/wren_compiler.c:3196-3212 | the jump of continue lands at the start of its loop if and only if it is less than 2^16 bytes away |
| Limits.LongLoopFails | lib/wren/src/vm/wren_compiler.c:2994-3003 | a body that is accepted, a while statement with an empty body whose condition of 65536 bytes is the receiver negated by an odd number of `!`, and whose evaluation never ends, runs into an error: its jump back goes to its own test, which pops the receiver |
| Limits.CallReads | lib/wren/src/vm/wren_compiler.c:1337-1341 | the operand of a call reads back as the symbol of its method if and only if that is below 2^16 |
| Limits.NameLengths | lib/wren/src/vm/wren_compiler.c:1394-1403 | variables and getters of 64 characters are accepted, and those of 65 are not |
| Limits.Declarations | lib/wren/src/vm/wren_compiler.c:1394-1456 | a variable may have the name of one outside its scope but not of one inside it, and the 257th local is an error |
| Limits.OnlyInLoops | lib/wren/src/vm/wren_compiler.c:3175-3212 | break and continue are errors exactly outside of loops |
| Limits.JumpLengths | lib/wren/src/vm/wren_compiler.c:1756-1764 | the operands of the logical operators and of ?: are accepted up to exactly 65536 bytes jumped over, the jump between the branches included |
| Limits.LastGetterFails | lib/wren/src/vm/wren_compiler.c:1337-1341 | a body with 65537 different getters is accepted, but the last one calls the method of the first |
| Programs.LongestJumpFails | lib/wren/src/vm/wren_compiler.c:1756-1764 | a program that the compiler accepts, with a jump of exactly 2^16 bytes, evaluates to false and returns true |
| Upvalues.VariablePersists | lib/wren/src/vm/wren_vm.c:244-301 | in the reference model of one heap cell for each variable, to which Fiber.Run refines: over any legal run a variable keeps its cell and its value until something stores to it, and once out of scope it stays out of scope |
| Upvalues.Fiber.CaptureUpvalue | lib/wren/src/vm/wren_vm.c:244-283 | returns the upvalue of the slot's cell: the existing open one if the slot is captured already, otherwise a new one linked into the list, which stays strictly descending; no other upvalue changes |
| Upvalues.Fiber.CloseUpvalues | lib/wren/src/vm/wren_vm.c:287-301 | closes and unlinks exactly the open upvalues at or above a slot; each keeps the value of its variable |
| Upvalues.Fiber.CloseFrom | lib/wren/src/vm/wren_vm.c:1209-1257 | leaving slots behind, at a scope exit or a return, gives what dropping them from the cell model gives |
| Upvalues.Fiber.StoreLocal | lib/wren/src/vm/wren_vm.c:959-961 | a store to a local is seen by every upvalue of the slot |
| Upvalues.Fiber.StoreUpvalue | lib/wren/src/vm/wren_vm.c:1101-1106 | a store through an upvalue is a store to the cell, whether the upvalue is open or closed |
| Upvalues.Fiber.LoadUpvalue | lib/wren/src/vm/wren_vm.c:1094-1099 | a read through an upvalue is a read of the cell |
| Upvalues.Fiber.EnsureStack | lib/wren/src/vm/wren_value.c:190-232 | growing the stack keeps every value, and every open upvalue on its slot; the new size is the smallest power of two that is enough |
| Upvalues.Fiber.Relocate | lib/wren/src/vm/wren_value.c:205-229 | every open upvalue is moved to the same slot of the new stack |
| Upvalues.SmearedIsCeil | lib/wren/src/vm/wren_utils.c:185-196 | the bit trick yields the smallest power of two that is at least its argument, for arguments up to 2^31 |
| Upvalues.CeilUnique | lib/wren/src/vm/wren_utils.c:185-196 | only one number is that, and it is what the model computes by halving |
| Upvalues.Fiber.Capture | lib/wren/src/vm/wren_vm.c:1270-1296 | closing over a slot twice yields one upvalue |
| Upvalues.Fiber.Execute | lib/wren/src/vm/wren_vm.c:925-1296 | each operation on the fiber acts on the cell model as it should, and keeps the list sorted and every upvalue coupled to its cell |
| Upvalues.Fiber.Run | lib/wren/src/vm/wren_vm.c:925-1296 | any run of captures, loads, stores, pushes, scope exits and stack growth reads exactly the values that one heap cell for each variable would give |
| Upvalues.ReadsLast | lib/wren/src/vm/wren_vm.c:925-1296 | said of the history alone: in any legal run from an empty stack, every load reads what was last stored in its variable, by whichever slot or upvalue, or what the variable was pushed with |
| Upvalues.RunNew | lib/wren/src/vm/wren_vm.c:925-1296 | so does every load of such a run on a new fiber |
| Captures.Discarded | lib/wren/src/vm/wren_compiler.c:1492-1517 | where only marked locals are captured, discarding locals by closing the marked ones and popping the others is legal, and leaves the slots below as they were |
| Captures.ExprRuns | lib/wren/src/vm/wren_compiler.c:1577-1593 | no run of an expression pops a captured variable: it leaves one more value, which is not captured, and captures only locals that are marked after it |
| Captures.StmtRuns | lib/wren/src/vm/wren_compiler.c:3175-3263 | nor does any run of a statement, whichever way it ends: its locals are those that the compiler has in scope there, or those of the loop around it after a break or a continue, or only the result of the function |
| Captures.LoopRuns | lib/wren/src/vm/wren_compiler.c:2968-3023 | however often a loop repeats, a break or a continue that comes before a closure in the text pops none of the variables which that has captured |
| Captures.InvokeRuns | lib/wren/src/vm/wren_vm.c:1061-1089 | a call with as many arguments as there are parameters leaves the frames below it as they were, whatever the function called does |
| Captures.RunsLegal | lib/wren/src/vm/wren_compiler.c:1492-1517 | every run of any functions, of any length, in which each call passes as many arguments as there are parameters is legal: no captured variable is popped, and no slot is used that is not there |
| Captures.ExtraArguments | lib/wren/src/vm/wren_vm.c:809-821 | calling functions that have a parameters with n arguments, at least as many, is legal whatever they do if and only if n is a; a function called with more can pop a variable that it has captured |
| Captures.RunOnFiber | lib/wren/src/vm/wren_vm.c:925-1296 | such a run is legal, and on a fiber each load reads what was stored last in its variable |
| MergeSort.MergeSorted | include/uthash.h:916-950 | merging two sorted runs gives a sorted run with the elements of both |
| MergeSort.MergeStable | include/uthash.h:916-950 | equivalent elements keep their order, those of the first run before those of the second |
| MergeSort.PassRuns | include/uthash.h:905-966 | a pass over runs of length k gives sorted runs of length 2k, and is stable |
| MergeSort.StableOrder | include/uthash.h:893-975 | where elements are stably permuted, of two equivalent ones the same is first before and after |
| Uthash.MergeRuns | include/uthash.h:908-958 | the pointer merge of two adjacent runs relinks them into the output list as the merge function does, and leaves the rest of the list as it was |
| Uthash.SortPass | include/uthash.h:901-966 | a pass relinks prev and next of the whole list, and finds its new ends; it is the last one if and only if the list is at most two runs |
| Uthash.SortList | include/uthash.h:893-975 | the passes terminate with a stably sorted, properly linked list of the same elements |
| Uthash.Hash.Sort | include/uthash.h:893-975 | HASH_SRT: the table stays valid, and for every total preorder the list is a permutation in which no key comes before a smaller one, and of two equivalent keys the same is first as before, with head and tail |
| Uthash.Hash.Find | include/uthash.h:156-166 | finds an element with the key exactly when there is one |
| Uthash.Hash.Add | include/uthash.h:399-418 | appends an element with a new key to the list, and the table stays valid; the buckets double exactly when the chain then has ten times one more than its expansion multiple, unless that was disabled |
| Uthash.Hash.Delete | include/uthash.h:453-480 | removes exactly that element from the list, and the table stays valid, in its bucket and in its tail and counts |
| Uthash.Hash.Expand | include/uthash.h:836-886 | doubles the buckets; every element is again in the bucket of its hash, and nothing is lost; each chain gets its expansion multiple, and a second expansion in a row with more than half of the elements beyond the ideal length disables the next ones |
| Uthash.ExpandBuckets | include/uthash.h:848-886 | moving every chain rehashes every element into twice as many buckets, with counts and back links |
| Uthash.IdealIsLeast | include/uthash.h:849-851 | the ideal length computed with shift and mask is the least with which the chains have room for all elements |
| Uthash.MultipleBounds | include/uthash.h:858-863 | the expansion multiple of a chain that exceeds the ideal length is how many times it does, rounded up: m - 1 times is less than the chain, and m times at most one less |
| Uthash.AddToBucket | include/uthash.h:770-789 | puts the element first in its bucket, and counts it |
| Uthash.DeleteInBucket | include/uthash.h:792-805 | unlinks the element from its bucket only |
| Uthash.FindInBucket | include/uthash.h:748-767 | finds an element of the bucket with the hash and the key exactly when there is one |
| Bits.MaskExact | include/uthash.h:433-436 | masking with one less than a number gives the remainder of every hash value if and only if that number is a power of two |
| Uthash.Hash.Masked | include/uthash.h:433-436 | the number of buckets of a valid table is a power of two, so the bucket of a hash value is its remainder |
| Uthash.Hash.Fsck | include/uthash.h:519-566 | on any table at all, whatever its pointers and counts, the check ends, and it passes if and only if the elements and the chains are properly linked lists of the lengths recorded; it finds those lists, and there are no others |
| Uthash.Hash.SoundValid | include/uthash.h:519-566 | a valid table passes; a table that passes is valid if and only if its keys are right, its tail is the last element, its buckets are a power of two and each element is in its bucket, which is what the check leaves open |
| Uthash.Hash.Run | include/uthash.h:399-480 | after any run of legal additions, deletions and lookups, the table holds the keys of a plain list in insertion order, and every lookup answered as that list would |
| Uthash.FinalPresent | include/uthash.h:399-480 | said of the history alone: a key is in the list at the end if and only if it was added after it was last deleted, or was there first and never deleted |
| Uthash.FinalNext | include/uthash.h:399-480 | a key that is added goes to the end, and one that is deleted leaves the others in their order |
| Uthash.FoundNext | include/uthash.h:156-166 | a lookup finds a key if and only if it is present then |
| Collector.ClosedReach | lib/wren/src/vm/wren_value.c:1190-1214 | a set that contains the roots and what its members refer to contains everything reachable, in any number of steps |
| Collector.VM.GrayObj | lib/wren/src/vm/wren_value.c:976-997 | marks an object that is not dark yet and puts it on the gray stack; marking is idempotent and keeps every dark object reachable |
| Collector.VM.BlackenFiber | lib/wren/src/vm/wren_value.c:1055-1085 | traversing a fiber marks its frames, stack, open upvalues, caller and error, and charges its size |
| Collector.VM.BlackenObject | lib/wren/src/vm/wren_value.c:1190-1214 | traversing an object of any kind marks everything it refers to and charges its size once; a foreign object refers to nothing and costs nothing |
| Collector.VM.BlackenObjects | lib/wren/src/vm/wren_value.c:1216-1224 | the gray loop terminates with no gray object, everything that traversed objects refer to dark, and the memory of exactly the traversed objects counted |
| Collector.VM.Marked | lib/wren/src/vm/wren_vm.c:167-169 | when no object is gray, the dark objects are exactly those reachable from the roots |
| Collector.VM.Sweep | lib/wren/src/vm/wren_vm.c:171-193 | unlinks and frees exactly the unmarked objects, in order, and unmarks the others |
| Collector.VM.CollectGarbage | lib/wren/src/vm/wren_vm.c:125-211 | what is left is exactly what modules, temporary roots, fiber, handles and method names reach, in order: every root, everything that a field of a survivor mentions, and nothing that is neither a root nor mentioned by another survivor; the others are freed, no mark is left, each survivor is charged once, and the next threshold follows the growth percentage |
| Collector.EdgesMention | lib/wren/src/vm/wren_value.c:1010-1188 | traversing an object goes to exactly what its fields mention: class, superclass, methods and name of a class, fn and upvalues of a closure, frames, stack, open upvalues, caller and error of a fiber, and so on for each kind |
| Collector.MentionedBy | lib/wren/src/vm/wren_value.c:1190-1214 | what is reached and is no root is mentioned by something else that is reached |
| Collector.SizeFields | lib/wren/src/vm/wren_value.c:1010-1188 | the size charged for each kind of object, by its own structure and the arrays that it owns |
| Collector.ClassesKept | lib/wren/src/vm/wren_value.c:1102-1109 | nothing is lost for want of the edge from foreign objects to their classes if and only if the class of each foreign object that is reached is reached along other edges |
| Collector.ForeignClassFreed | lib/wren/src/vm/wren_value.c:1102-1109 | a collection frees the class of a live foreign object to which nothing else leads |
| Collector.ForeignExample | lib/wren/src/vm/wren_vm.c:680-700 | there is such a heap: a handle on a foreign object, whose finalizer will read the class that is freed |
| Collector.KeepMembers | lib/wren/src/vm/wren_vm.c:171-193 | keeping and dropping split a list without duplicates into members and non-members of the live set |
| Collector.ChargeSame | lib/wren/src/vm/wren_value.c:1190-1214 | the memory charged does not depend on the order of traversal |
| MapTable.FindEntry | lib/wren/src/vm/wren_value.c:459-517 | probing terminates on any table, full ones included, finds the key exactly when it is present, and otherwise yields the first slot of the probe sequence that is not used, a passed tombstone first |
| MapTable.InsertEntry | lib/wren/src/vm/wren_value.c:523-541 | the map gets the key with the value, tells whether the key is new, and no empty slot comes between a key and its home |
| MapTable.NotBeyond | lib/wren/src/vm/wren_value.c:459-517 | a present key is found before any empty slot of its probe sequence |
| MapTable.Removed | lib/wren/src/vm/wren_value.c:609-622 | putting a tombstone removes exactly that key, and leaves every other key findable |
| MapTable.FreeSlot | lib/wren/src/vm/wren_value.c:513-516 | a table with fewer entries than slots has a free slot, so an insertion never fails |
| MapTable.ObjMap.constructor | lib/wren/src/vm/wren_value.c:363-371 | a new map is empty |
| MapTable.ObjMap.Resize | lib/wren/src/vm/wren_value.c:544-572 | moving the entries to a table of another size keeps the map, and leaves no tombstone |
| MapTable.ObjMap.Get | lib/wren/src/vm/wren_value.c:574-580 | looks up the key in the map |
| MapTable.ObjMap.Set | lib/wren/src/vm/wren_value.c:582-599 | sets the key in the map; the table grows to twice its size, and to at least 16, exactly when one more entry would be above 75 percent |
| MapTable.ObjMap.Clear | lib/wren/src/vm/wren_value.c:601-607 | empties the map |
| MapTable.ObjMap.RemoveKey | lib/wren/src/vm/wren_value.c:609-643 | removes the key and returns its value; the table is freed with its last entry, and otherwise halved, but not below 16, exactly when fewer entries are left than 75 percent of its half |
| MapTable.ObjMap.SizeIsCount | lib/wren/src/vm/wren_core.c:523-526 | the count is the number of keys |
| MapTable.ObjMap.Iterate | lib/wren/src/vm/wren_core.c:528-559 | the next used slot after the iterator, or none exactly when there is none |
| MapTable.ObjMap.Traverse | lib/wren/src/vm/wren_core.c:528-559 | a loop over the map visits each key once, with its value, and nothing else |
| MapTable.ObjMap.Run | lib/wren/src/vm/wren_value.c:574-643 | any run of set, get, remove, clear and count, with the growing and shrinking it causes, answers as a mathematical map does |
| MapTable.HoldsLast | lib/wren/src/vm/wren_value.c:574-643 | said of the history alone: a key has a value at the end if and only if that was set after the key was last set, removed or cleared, or was there first |
| MapTable.FoundLast | lib/wren/src/vm/wren_value.c:574-643 | each get and remove answers with what its key holds then |
| Binding.BindExact | lib/wren/src/vm/wren_compiler.c:3843-3902 | binding keeps the layout: instructions start where they did, and the only bytes that change are the operands of field instructions, by the number of inherited fields |
| Binding.BindSuffix | lib/wren/src/vm/wren_compiler.c:3843-3902 | from any instruction start, code is bound as if it stood alone, and the next instruction is a start again |
| Rebinding.Rebound | lib/wren/src/vm/wren_vm.c:374-378 | after any number of bindings of one function, it is what the class of a given one needs if and only if the others shift by 0 modulo 256 or it uses no field, nested functions included, and the last named the same superclass or it calls none |
| Rebinding.BoundAgain | lib/wren/src/vm/wren_compiler.c:3843-3902 | binding twice is binding once by both shifts and with the second superclass, recursively |
| Rebinding.BoundSame | lib/wren/src/vm/wren_compiler.c:3843-3902 | two bindings give the same function if and only if the shifts agree modulo 256 or no field is used, and the superclasses agree or none is called |
| Rebinding.SecondDefinitionFails | lib/wren/src/vm/wren_compiler.c:3853-3860 | a getter of a class with an inherited field reads the wrong field once the class is defined a second time, as in a loop |
| Rebinding.SecondSuperclassFails | lib/wren/src/vm/wren_compiler.c:3862-3885 | a super call of a class calls another superclass once the class is defined again with that |
| MethodMachine.BindSimulates | lib/wren/src/vm/wren_compiler.c:3843-3902 | for any environment, any number of steps and any instances with the inherited fields first, the bound method runs exactly as the unbound one that sees only its class's own fields and its superclass, nested closures included, up to a class definition, where both stop |
| MethodMachine.MethodSimulates | lib/wren/src/vm/wren_vm.c:374-378 | so does a call of the method, from its first instruction on |
| MethodMachine.StepSimulates | lib/wren/src/vm/wren_vm.c:941-1148 | the same for one step: field accesses, super calls, constants and closures find what they found |
| MethodMachine.StepAligned | lib/wren/src/vm/wren_vm.c:826-1390 | every frame stays at the start of an instruction, so no operand is executed |
| MethodMachine.LookupBound | lib/wren/src/vm/wren_compiler.c:3885-3891 | the nested functions of a bound method are the bound nested functions |
| MethodMachine.OwnFieldsOnly | lib/wren/src/vm/wren_vm.c:941-950 | an access to the class's own fields neither depends on inherited ones nor changes them |
| ClassBinding.ObjFn.BindMethodCode | lib/wren/src/vm/wren_compiler.c:3843-3902 | the in-place walk over code and constants, recursing into closures, leaves the bound function, whatever the nesting |
| ClassBinding.ObjFn.BindInstructionAt | lib/wren/src/vm/wren_compiler.c:3849-3900 | one instruction is bound in place, and the walk goes on at the next one |
| ClassBinding.ClosureNew | lib/wren/src/vm/wren_compiler.c:3885-3891 | a closure instruction names a function that the walk has not bound yet |
| MethodMachine.WalkReads | lib/wren/src/vm/wren_compiler.c:2862-2964 | the walk over the code takes every instruction, closures included, to be as long as the bytes that are read when it runs, given as numbers |
| MethodMachine.Advances | lib/wren/src/vm/wren_vm.c:836-925 | every instruction but jumps and return leaves its frame where the walk's next instruction starts |
| MethodMachine.FieldSteps | lib/wren/src/vm/wren_vm.c:941-1147 | instructions 19 to 22 load and store the field of the operand, counted from the first that is not inherited, of the receiver or of the instance on the stack |
| MethodMachine.CallSteps | lib/wren/src/vm/wren_vm.c:982-1060 | instructions 24 to 40 call the method of their operand with the receiver and 0 to 16 arguments |
| MethodMachine.SuperSteps | lib/wren/src/vm/wren_vm.c:1008-1060 | instructions 41 to 57 do so in the superclass of the method's class, whatever the receiver |
| MethodMachine.JumpSteps | lib/wren/src/vm/wren_vm.c:1149-1257 | 58 jumps forward and 59 back, and 64 returns the top of the stack in the place of the call's arguments |
| MethodMachine.ConstantSteps | lib/wren/src/vm/wren_vm.c:1270-1296 | 0 pushes a constant, and 65 a closure with one upvalue for each pair of operand bytes |
| MethodMachine.BranchSteps | lib/wren/src/vm/wren_vm.c:1164-1207 | 60, 61 and 62 branch if and only if the top of the stack is, or for the logical or is neither, null or false |
| Fibers.VM.constructor | lib/wren/src/vm/wren_vm.c:826-832 | a program starts with only its root fiber running |
| Fibers.VM.Acyclic | lib/wren/src/vm/wren_core.c:86-138 | following callers never leads back, from any fiber, live or not |
| Fibers.VM.TriedHasCaller | lib/wren/src/vm/wren_vm.c:415-421 | every live fiber in the try state has a live caller, so the error of a tried fiber always has somewhere to go |
| Fibers.VM.RunFiber | lib/wren/src/vm/wren_core.c:86-138 | succeeds exactly for a live fiber without a caller that is not the root; a fiber that starts gets the value, or null, as one more slot if it has a parameter, and one that goes on has it on top of its stack, with the slots below as they were; otherwise names the first reason, and only a finished fiber is left hooked to its caller |
| Fibers.VM.Call | lib/wren/src/vm/wren_core.c:140-207 | call and try: the callee runs with the caller next in the chain, in the try state only when tried; a fiber that cannot be called aborts the caller |
| Fibers.VM.RuntimeError | lib/wren/src/vm/wren_vm.c:403-434 | unwinding terminates; it aborts exactly the running fiber and its callers up to the nearest tried one, with the same error, and the fiber that tried goes on with the error on top of its stack, whose other slots and length are as before; without one the program ends |
| Fibers.VM.Unwind | lib/wren/src/vm/wren_vm.c:410-429 | each fiber up to the nearest tried one gets the error, those before it lose their caller, and the tried one keeps it |
| Fibers.VM.Abort | lib/wren/src/vm/wren_core.c:71-77 | an explicit abort unwinds, except that a null error does nothing |
| Fibers.VM.Yield | lib/wren/src/vm/wren_core.c:209-249 | the caller goes on with the value, or null, on top of its stack, whose other slots are as before; the yielding fiber is unhooked and no longer tried; when the root yields the program stops |
| Fibers.VM.Return | lib/wren/src/vm/wren_vm.c:1215-1242 | a finished fiber is unhooked, and its caller goes on with the result on top of its stack, whose other slots are as before |
| Fibers.VM.NewFiber | lib/wren/src/vm/wren_core.c:58-69 | a new fiber is live, has no caller and does not run |
| Fibers.VM.Execute | lib/wren/src/vm/wren_core.c:58-249 | each event does its own step, as the rows above say, keeps every invariant, and never revives an aborted or finished fiber |
| Fibers.VM.Run | lib/wren/src/vm/wren_core.c:58-249 | over any run, the running fiber's chain ends at the root, and no fiber that has aborted or finished ever runs again |
| Closures.Compiler.ResolveLocal | lib/wren/src/vm/wren_compiler.c:1532-1546 | the innermost local with the name, or -1 exactly when there is none |
| Closures.Compiler.AddUpvalue | lib/wren/src/vm/wren_compiler.c:1551-1564 | an upvalue for the variable is found or appended, never recorded twice, and the array overruns exactly when there are more than 256 |
| Closures.Compiler.AddedOnce | lib/wren/src/vm/wren_compiler.c:1551-1564 | a search adds an upvalue exactly when none leads to the variable yet, so the array overruns when the 257th variable is closed over |
| Closures.ManyUpvalues | lib/wren/src/vm/wren_compiler.c:1551-1564 | a function inside two others closes over 257 of their variables, and writes past the end of the array |
| Closures.Compiler.FindUpvalue | lib/wren/src/vm/wren_compiler.c:1577-1612 | finds the name exactly when a lexical search outward sees it before a method boundary; the recorded chain leads to that declaration, which is marked; earlier entries stay |
| Closures.Compiler.ResolveNonmodule | lib/wren/src/vm/wren_compiler.c:1618-1631 | a name is a local here, or an upvalue that leads to what lexical scoping means by it, or neither |
| Closures.Compiler.PassedOn | lib/wren/src/vm/wren_compiler.c:1595-1607 | every function between the declaration and the use has an entry that leads to the same declaration |
| Closures.Compiler.RecordedOnce | lib/wren/src/vm/wren_compiler.c:1551-1564 | no function records a variable twice: two upvalues that lead to one declaration are the same |
| Closures.Compiler.FollowKept | lib/wren/src/vm/wren_compiler.c:1551-1564 | what an upvalue leads to does not change when others are added |
| Closures.Compiler.VisibleOnce | lib/wren/src/vm/wren_compiler.c:1532-1612 | lexical scoping is unambiguous: a name means one declaration |
| StringFind.Find | lib/wren/src/vm/wren_value.c:902-961 | the least match at or after the start, and not found exactly when there is none; outside the shift table exactly when the needle is not empty, fits, and has a byte 255 before its last, or the search, shift by shift, comes before any match to a window that ends in a byte 255 |
| StringFind.NeverHits255 | lib/wren/src/vm/wren_value.c:943-957 | no search of a haystack without a byte 255 from the first window's end on comes to such a window |
| StringFind.HitsExamples | lib/wren/src/vm/wren_value.c:943-957 | the haystacks [255] and [98, 97, 255] are searched past the table, while [97, 255] and [97, 97, 97] are not, for the needles given |
| StringFind.MatchBytes | lib/wren/src/vm/wren_value.c:948-952 | a match is one byte by byte |
| StringFind.ShiftTable | lib/wren/src/vm/wren_value.c:917-941 | the entry of each byte is the least advance that puts an equal byte of the needle there, or the length of the needle; filling the table stays in it exactly when no byte of the needle but the last is 255 |
| StringFind.ShiftSkipsNone | lib/wren/src/vm/wren_value.c:955-956 | no shift skips a match |
| Utf8.Encode | lib/wren/src/vm/wren_utils.c:78-120 | writes the encoding of a code point up to 0x10ffff at the pointer, and nothing else |
| Utf8.Decode | lib/wren/src/vm/wren_utils.c:122-168 | the loop over continuation bytes decodes the first sequence of the buffer, or -1 if it is malformed or cut short |
| Utf8.EncodedForm | lib/wren/src/vm/wren_utils.c:78-120 | the one to four bytes of each code point, bit group by bit group, and none above 0x10ffff |
| Utf8.DecodedForm | lib/wren/src/vm/wren_utils.c:122-168 | the code point that a sequence of each length decodes to, and which sequences decode to none |
| Utf8.DecodeEncoded | lib/wren/src/vm/wren_utils.c:67-182 | decoding inverts encoding, whatever follows; the first byte tells the length; only the other bytes are continuation bytes |
| Slicing.ByteAt | lib/wren/src/vm/wren_utils.c:170-182 | in an encoded list of code points, every byte either starts a code point, which decodes as it was, or continues one |
| Slicing.Iterate | lib/wren/src/vm/wren_core.c:1093-1117 | goes to the next byte that does not continue a code point, and ends exactly when there is none |
| Slicing.CodePoints | lib/wren/src/vm/wren_core.c:1029-1117 | iterating over an encoded list of code points gives the list back |
| Slicing.CalculateRange | lib/wren/src/vm/wren_primitive.c:68-119 | the indices from the first to the last of the range, in its direction, with negative ends counted from the end; fails exactly when an end is out of bounds |
| Slicing.SpanCovers | lib/wren/src/vm/wren_primitive.c:68-119 | it selects exactly the indices between the two ends, the last included or not, in the direction of the range |
| Slicing.SpanExists | lib/wren/src/vm/wren_primitive.c:68-119 | it fails unless the first end is an index and the last is one, or for an exclusive range one beyond; an empty range at the end is allowed |
| Slicing.SpanInRange | lib/wren/src/vm/wren_primitive.c:68-119 | every index of a computed range is in bounds |
| Slicing.NewStringFromRange | lib/wren/src/vm/wren_value.c:728-755 | writes the code points that start at the indices, in the order visited, and never more bytes than it allocated, or reports that it reached a code point above the last, which the original declares unreachable |
| Slicing.WrittenFits | lib/wren/src/vm/wren_value.c:728-755 | for any bytes, a slice writes at most what it allocates, and exactly that if and only if each of its bytes is ASCII, is in the middle of a sequence, or starts a complete and shortest sequence of a code point up to 0x10ffff |
| Slicing.PieceComplete | lib/wren/src/vm/wren_utils.c:122-182 | which of the two an index is, and whether it reaches what is declared unreachable, follows from the bytes there alone |
| Slicing.SliceUnwritten | lib/wren/src/vm/wren_value.c:728-755 | a slice of the byte 0xc2 leaves two bytes unwritten, and one of 0xc0 0x80 one |
| Slicing.PieceFits | lib/wren/src/vm/wren_utils.c:122-182 | no decoded code point is encoded in more bytes than its first byte announces |
| Slicing.SliceSelects | lib/wren/src/vm/wren_value.c:728-755 | a slice of an encoded list, in either direction, is exactly the encoding of the selected code points and fills its allocation |
| Slicing.Subscript | lib/wren/src/vm/wren_core.c:1170-1193 | slicing by a range fails exactly when the range is out of bounds |
| Splitting.Split | lib/wren/src/vm/wren_core.wren:188-213 | the pieces between the leftmost matches of a non-empty delimiter, cut by index search and slices |
| Splitting.SplitJoin | lib/wren/src/vm/wren_core.wren:188-213 | splitting and joining with the delimiter gives the string back |
| Splitting.PiecesLeftmost | lib/wren/src/vm/wren_core.wren:188-213 | no piece contains the delimiter, and each piece ends at the leftmost delimiter |
| Splitting.Join | lib/wren/src/vm/wren_core.wren:99-110 | the elements with the separator between them |
| Splitting.JoinParts | lib/wren/src/vm/wren_core.wren:99-110 | nothing joined is empty, one element is itself, and two lists are joined with one separator between them |
| Splitting.Replace | lib/wren/src/vm/wren_core.wren:215-237 | replacing is splitting by the one string and joining with the other |
| Splitting.MatchBoundaries | lib/wren/src/vm/wren_core.wren:188-237 | a match of one well-formed string in another starts and ends between code points |
| Splitting.SliceBytes | lib/wren/src/vm/wren_value.c:728-755 | a slice between two code point boundaries is the bytes between them |
| Sampling.Sample | lib/wren/src/optional/wren_opt_random.wren:60-82 | with arbitrary choices in range, both the map and the boolean-list branch return the elements at the positions of Floyd's algorithm; fails exactly when more elements are wanted than there are |
| Sampling.PickedDistinct | lib/wren/src/optional/wren_opt_random.wren:60-82 | the sampled positions are distinct and in range |
| Sampling.WaysCount | lib/wren/src/optional/wren_opt_random.wren:60-82 | every set of k positions is the sample of exactly k! of the choice sequences |
| Sampling.Shuffle | lib/wren/src/optional/wren_opt_random.wren:84-94 | the in-place swaps give the list that the choices determine |
| Sampling.ShuffleReaches | lib/wren/src/optional/wren_opt_random.wren:84-94 | every order of a list of distinct elements is reached by some choices |
| Sampling.ShuffleOnce | lib/wren/src/optional/wren_opt_random.wren:84-94 | and by no others: exactly one choice sequence leads to each order |
| Sampling.ShuffleKeeps | lib/wren/src/optional/wren_opt_random.wren:84-94 | a shuffle keeps the elements, with their multiplicity |

## Left out

- Programs.CompiledFunctionCorrect: requires what the compiler does not check: jump distances and method symbols below 2^16, and no local past the end of the array; method calls with argument lists, subscripts, list and map literals, string interpolation, fields, `this`, `super`, function literals and classes are not in the fragment.
- Compilation.Compiler.AddLocal: past the end of the array the original overwrites other memory, and the model only records that.
- Compilation.Compiler.Statement: after the first error the model stops, where the original goes on to report others.
- Compilation.Compiler.FinishBody: module-level code and parameter lists are not compiled; the parameters are given as the initial scope.
- Interpreter.EndsOnce: one call frame; fibers, upvalues and calls between frames are modelled apart from it.
- Uthash.Hash.Add: the hash of a key is given.
- Uthash.SortList: the run length doubles without a bound, in place of an unsigned int.
- Upvalues.Fiber.EnsureStack: growing by a new allocation only, without the case where the block grows in place; the pointers of call frames and of the foreign call stack are not moved, and the size is computed by halving instead of by bit operations.
- Collector.VM.CollectGarbage: no compilation is in progress, and the contents of objects do not change during a collection; finalizers are not run; the entries of a map are traversed keys first.
- MapTable.ObjMap.Run: equal keys hash equally, which ranges that mix 0 and -0 violate, and capacities do not wrap at 2^32; a missing key and a null value are told apart.
- MapTable.ObjMap.Iterate: the iterator is an integer; other numbers are an error in the original.
- Binding.BindExact: code that is whole instructions, with one closure instruction for each nested function, as the compiler emits it.
- MethodMachine.BindSimulates: requires that own and inherited fields together are at most 255, which is checked when the class is created; instructions that binding does not touch are given by the environment, and a run stops at a class definition, which binds methods again.
- Fibers.VM.Run: transfer and transferError are not modelled, because the chain of callers does not survive them; frames are a count, and a program does not re-enter the interpreter.
- Closures.Compiler.AddUpvalue: past the end of the array the original overwrites other memory, and the model only records that.
- Fibers.VM.Return: when the root fiber returns, the interpreter ends; the model then has no running fiber, where the original still points at it.
- Utf8.Encode: bit masks and shifts are written as remainders and quotients.
- Captures.RunsLegal: expressions and statements that only move values are one constant, the functions an expression closes over are given by the names that they use, and fibers and classes are left out; a name that is no local may read or write any captured variable.
- Upvalues.SmearedIsCeil: the step from 32-bit words to integers, between this and Upvalues.CeilUnique, is not proved.
- Slicing.CalculateRange: ends that are not integers are an error in the original.
- Splitting.Split: strings and delimiters are well-formed UTF-8; on other strings slices may lose bytes.
- Sampling.Sample: the generator itself and the rounding of its numbers.
- The lexer, error messages, attributes, imports, foreign classes and the module loader.
- carrica's own C files (`src/`), which move values between Lua and Wren.
- uthash's bloom filter, hash functions, ordered insertion, replacement, selection and recovery from lack of memory.
- Lists, ranges, numbers and their printing, `quicksort_`, and the meta and debug modules.
