# MicroJIT, modelled and verified

MicroJIT compiles a structured program (nested scopes, `if`/`else`/`while`,
`break`, `return`, primitive operations, calls) into flat x86-64 code with labels
and jumps, and caches the compiled code per function. This project models its
four core parts and proves what they promise.

**The compiler.** `Program` is the tree the builder leaves, `Semantics` what it
means. `Emission` is the emission as a structural recursion and `Worklist` the
emission as the compiler does it, with explicit scope and loop stacks; the two
are proved equal. `Branches` is the breadth-first pairing of `else` branches,
`Labels` says which labels are bound, and `Machine` runs the result. `CodeSemantics`
tells on the program what its code does, deviations included, and `Simulation`
proves that of every program that links. `Preservation` proves that the compiled
code of a faithful program halts exactly when the program does, with the same final
state, and `Exactness` that it does so for no other program: whatever control can
reach that is compiled otherwise shows. `Unfaithful` gives two whole programs.
`Destruction` counts destructor calls. `FrameLayout` is the layout of the stack
frame, `Asm` and `Codegen` the instructions that each operation is emitted as, on
a processor with registers, flags (`Integers`) and byte-addressed memory with
little-endian integers; `Assembled` proves that a program is accepted exactly when
all of these exist. `Bytes`, `Calls` and `EndToEnd` prove that they implement
a store of named variables (`Named`), each operation starting from whatever the
one before left in the registers, and carry this through whole programs with
`Refinement`. `Linked` puts the compiled code of the callees in the place of the
calls, to any depth, recursion included. `Progress` and `CheckedPrograms` say which
programs never get stuck, and so have code that never faults. `DestructorCalls` says what destructors
are called on. `Builder` is the object graph the tree comes from.

**The argument block** (`ArgBlock`): the C++ caller, the compiled caller, the
compiled callee and the native trampoline in both evaluation orders compute the
same slots.

**The compilation cache** (`Cache`): the placeholder protocol of the pooled
handler as atomic steps of any number of threads and hosts. `CacheCalls` says what
each locked section does to the map and what each call gives back.

**The thread pool** (`ThreadPools`, `PriorityQueues`) and **reference counting**
(`RefCount`): worker and ticket accounting in a byte, task conservation and
priorities, the in-place binary heap, and the compare-and-swap counter with its
handles. `RefOperations` says what a copy and a drop come to, whatever other handles
do meanwhile.

Variables, branches and scopes, which the library identifies by address, are
identified by their place in the tree. A `Relation`, an `Interp` or a machine's
environment is a parameter of the theorems: they hold for every choice of it.

No proof rests on automatic induction: every lemma spells its induction out.

Where the code and its own messages or intentions differ, the model follows the
code, and the difference is stated by a lemma:

- The message of `else_branch` asks for an `if`, but the check accepts any branch
  (`Builder.RectifiedScope.ElseBranch`); such an `else` runs unconditionally.
- A `while` with a `return` directly in its body is compiled to nothing
  (`Simulation.SimSkip`, `Preservation.LoopWithReturnIsSkipped`, and
  `Unfaithful.ReturningLoopDiffers` for a whole program); an empty `while` or `else` body leaves
  a jump to an unbound label (`Labels.CompileResolves`).
- A `break` destroys the variables of its own scope only
  (`Preservation.BreakDestroysEnough`, and `Unfaithful.BreakingLoopDiffers` for a
  whole program).
- A destructor is called on the first eight bytes of the variable's slot rather
  than on its address (`DestructorCalls.DestructorArgument`,
  `DestructorCalls.DestructorMisses`, `DestructorCalls.ShowDestructorMiss`).
- A variable of 16 bytes or more reserves twice its size, and its upper end is
  aligned rather than its address (`FrameLayout.ReserveExact`).
- `div` and `idiv` work on a zeroed `rdx` (`Integers.DivisionExact`).
- `has_variable` looks at ownership, not position: a variable of an enclosing
  scope is accepted wherever it is declared (`Builder.AcceptedWhenEnclosed`), and
  the use comes after the declaration if and only if the declaration's offset is
  the smaller one (`Builder.AcceptedIsVisible`, `Builder.DeclareBehind`).
- `create_scope` checks that a body is this scope's own; `if_branch`,
  `else_branch` and `while_branch` do not. Acceptance follows the nesting of the
  tree if and only if every body was given to its parent
  (`Builder.AttachedDecides`, `Builder.BorrowBody`).
- A compilation that fails leaves its null entry behind
  (`Cache.FailureAbandons`, `Cache.AbandonedForever`).
- 255 termination tickets do not drain a larger pool (`ThreadPools.DrainsExactly`),
  and a 256th single termination wraps the byte to no ticket at all
  (`ThreadPools.WrapReached`), which can happen if and only if a pool may grow
  past 255 workers (`ThreadPools.WrapsExactly`).
- A native function without arguments is called, but its result is not stored
  (`ArgBlock.CallNative`). This is so in the left-to-right build; in the
  right-to-left one, such a function does not compile (the sum of no sizes at
  trampoline.h:95, used at lines 169 and 183).

## Model

| member | source | states |
|---|---|---|
| Worklist.CompileInternal | src/microjit/jit_x86_64.cpp:82-377 | The two-stack emission loop ends, fails if and only if it meets, before a return of the scope they stand in, a branch in a plain scope, a primitive conversion or a width no register has, and otherwise emits what the structural recursion emits |
| Assembled.EmittableExactly | src/microjit/jit_x86_64.cpp:82-377 | The programs it does not fail for are those whose every emitted instruction has the width of a register, that come upon no primitive conversion, and whose branches are reached through branch bodies only |
| Assembled.SupportedExactly | src/microjit/jit_x86_64.cpp:441-516 | An operation is refused if and only if one of the instructions it is emitted as has a width no register has |
| Assembled.CondEncodable | src/microjit/jit_x86_64.cpp:1068-1124 | So is a condition |
| Assembled.StoreEncodable | src/microjit/jit_x86_64.cpp:205-212 | And so is a variable to be returned |
| Assembled.OnlyEncodableRuns | src/microjit/jit_x86_64.cpp:26-52 | Code that runs on the processor has no other instruction |
| Worklist.Visit | src/microjit/jit_x86_64.cpp:113-324 | One instruction of the current scope emits its piece of the recursive emission, with the begin label if it is the first, and keeps both stacks in order; it leaves the scope for a body it opens, or for good at a return |
| Worklist.VisitBody | src/microjit/jit_x86_64.cpp:231-310 | Opening a nested scope or a branch emits its opening and leaves on the stacks what the recursion would do next |
| Worklist.VisitHead | src/microjit/jit_x86_64.cpp:259-310 | Before a branch's body come the test and the jump past it, to the else if the report has one, or a loop's jump to its condition; it fails for a branch the report does not know and for an if condition it cannot test |
| Worklist.VisitBreak | src/microjit/jit_x86_64.cpp:311-318 | A break destroys what its own scope has constructed and jumps to the end of the loop on top of the loop stack, and is nothing outside loops |
| Worklist.VisitReturn | src/microjit/jit_x86_64.cpp:201-230 | A return emits the store, the destructors of every open scope and the jump, binds the scope's end label and takes the loop off the loop stack |
| Worklist.Close | src/microjit/jit_x86_64.cpp:325-363 | A scope left at its end is closed as the recursion closes it, and the loop popped is the one that ends; it fails if and only if it is a loop body whose condition cannot be tested |
| Worklist.SingleScopeDestructorCall | src/microjit/jit_x86_64.cpp:427-439 | Destroys exactly the scope's non-primitive variables declared so far, in order |
| Worklist.IterativeDestructorCall | src/microjit/jit_x86_64.cpp:409-425 | Destroys those of all open scopes, innermost first |
| Worklist.LoopsAreInnermost | src/microjit/jit_x86_64.cpp:105-317 | The top of the loop stack is the innermost open `while`, so a break aims at it |
| Branches.CreateBranchesReport | src/microjit/jit_x86_64.cpp:54-78 | The queue reports every branch reachable through branch bodies and no other, and gives an `else` to the branch right before it in its own scope only |
| Branches.BranchesChained | src/microjit/jit_x86_64.cpp:58-76 | In the order of one scope, an `else` comes right after the branch it belongs to, although the queue mixes scopes |
| Labels.EmitUnique | src/microjit/jit_x86_64.cpp:107-364 | No label is bound twice by any scope's code |
| Labels.CompileUnique | src/microjit/jit_x86_64.cpp:103-369 | No label is bound twice in any compiled function |
| Labels.CompileResolves | src/microjit/jit_x86_64.cpp:116-119 | Every jump's label is bound if and only if loop and else bodies are not empty and no loop that returns directly contains a break of its own |
| Simulation.SimFrom | src/microjit/jit_x86_64.cpp:107-364 | From any point of any scope of a program that links, the code reaches the label that goes with the way `CodeSemantics` leaves the scope, in the same state |
| Simulation.SimLoop | src/microjit/jit_x86_64.cpp:343-357 | A loop's code takes as many turns as the condition grants |
| Simulation.SimReturn | src/microjit/jit_x86_64.cpp:201-230 | A return unwinds every open scope and reaches the epilogue |
| Simulation.SimBreak | src/microjit/jit_x86_64.cpp:311-318 | A break reaches the end of the innermost loop with the objects of its own scope destroyed |
| Simulation.SimSkip | src/microjit/jit_x86_64.cpp:219-229 | A loop with a direct return is stepped over without its condition being looked at |
| Simulation.CodeMeans | src/microjit/jit_x86_64.cpp:82-377 | For every program that links, operation semantics and initial state, the compiled code halts in a state exactly when `CodeSemantics` does, and faults exactly when that gets stuck: loops with a direct return skipped, scopes left by a break not destroyed, all else as the program means |
| Preservation.SameFrom | src/microjit/jit_x86_64.cpp:107-364 | From a point after which control reaches nothing that is compiled otherwise, program and code take the same way with the same state, out of the scope only as control may |
| Preservation.PreservesMeaning | src/microjit/jit_x86_64.cpp:82-377 | For every program that links and in which control reaches no loop with a direct return, no break through a scope that holds objects and no primitive conversion, every operation semantics and initial state, the compiled code halts in a state exactly when the program does, and faults exactly when the program gets stuck |
| Exactness.PreservedExactly | src/microjit/jit_x86_64.cpp:82-377 | And for no other: a program that links is preserved from every initial state under every operation semantics, already over states that are a script and a count, if and only if it is one of these |
| Exactness.UnfaithfulShows | src/microjit/jit_x86_64.cpp:201-357 | Any other program that links comes out differently from its code on a script of condition values, computed from the program, that leads to the first thing compiled otherwise |
| Exactness.MoreFuel | src/microjit/jit_x86_64.cpp:343-357 | How a program ends does not depend on the number of turns allowed, once it ends |
| Preservation.LoopWithReturnIsSkipped | src/microjit/jit_x86_64.cpp:219-229 | The code of a loop with a direct return does nothing, which is what the loop means if and only if its condition is false on entry |
| Preservation.ReturningNeverFalls | src/microjit/jit_x86_64.cpp:219-222 | A body with a direct return never falls off its end |
| Preservation.BreakDestroysEnough | src/microjit/jit_x86_64.cpp:311-318 | A break's code destroys all that it leaves if and only if it is directly in the loop body or the scopes between hold only primitives so far |
| Destruction.EvalRestores | src/microjit/jit_x86_64.cpp:326-331 | However a scope is left, the objects alive are those alive when it was entered |
| Destruction.DestructionBalance | src/microjit/jit_x86_64.cpp:214-218 | On every run of the compiled code that halts, the destructor calls are those of a log with one call for each variable whose declaration was passed, after it and before it is passed again, and no other call |
| Destruction.SticksTheSame | src/microjit/jit_x86_64.cpp:409-439 | A run with its declarations recorded gets stuck if and only if the run without gets stuck |
| DestructorCalls.DestructorArgument | src/microjit/jit_x86_64.cpp:409-439 | In every state that holds the variables, the emitted call passes the number in the first eight bytes of the variable's slot, which is the variable's address if and only if those bytes spell it |
| DestructorCalls.DestructorMisses | src/microjit/jit_x86_64.cpp:409-439 | Every variable in scope, of whatever size, can hold a value, with all else as it was, on which its destructor is not called on it |
| DestructorCalls.ShowDestructorMiss | src/microjit/jit_x86_64.cpp:421-436 | A state of a function with one object whose destructor is called on something else |
| Unfaithful.ReturningLoopDiffers | src/microjit/jit_x86_64.cpp:219-229 | A linkable function whose loop returns directly, followed by one operation: the program halts without the operation, the code after it, each in that state only |
| Unfaithful.BreakingLoopDiffers | src/microjit/jit_x86_64.cpp:311-318 | A linkable function that breaks, inside an if, out of a loop body that has declared an object: the program destroys it, the code does not |
| Refinement.SimEval | src/microjit/jit_x86_64.cpp:107-364 | Two interpretations whose operations and moves keep a relation keep it along every run of every scope |
| Refinement.SimMain | src/microjit/jit_x86_64.cpp:82-377 | And of every whole program, with the same outcome |
| FrameLayout.CreateFrameReport | src/microjit/jit.cpp:32-81 | The explicit-stack walk ends, gives each variable of the tree and nothing else its offset of the recursive layout, and the frame size is the least multiple of 16 that suffices |
| FrameLayout.ReserveExact | src/microjit/jit.cpp:44-48 | A variable under 16 bytes takes its size; a larger one takes twice its size rounded up, and its address is a multiple of 16 if and only if its size is |
| FrameLayout.LayoutOnce | src/microjit/jit.cpp:34-78 | No variable is laid out twice |
| FrameLayout.LayoutSound | src/microjit/jit.cpp:42-53 | Every entry is a declared variable at its path's offset, including the padding rule from 16 bytes on |
| FrameLayout.LayoutComplete | src/microjit/jit.cpp:34-78 | Every declared variable has an entry |
| FrameLayout.FrameDisjoint | src/microjit/jit.cpp:42-72 | A variable declared where another is visible lies wholly below it |
| FrameLayout.BelowReserve | src/microjit/jit.h:52-52 | Every variable lies below the eight reserved bytes |
| FrameLayout.FrameCoversReserve | src/microjit/jit.cpp:33-79 | The frame covers the saved argument pointer if and only if the function declares a variable |
| Integers.ComparisonCorrect | src/microjit/jit_x86_64.cpp:850-909 | At every width, the set-on-condition instruction chosen decides the signed or unsigned order through the flags of `cmp` |
| Integers.ArithmeticWraps | src/microjit/jit_x86_64.cpp:814-833 | Addition, subtraction and multiplication of the bit patterns are those of the values, modulo the width |
| Integers.DivisionExact | src/microjit/jit_x86_64.cpp:834-844 | With the zeroed rdx, division yields the truncated quotient if and only if the dividend is not negative, and then the remainder too |
| Asm.EncodeDecode | src/microjit/jit_x86_64.cpp:26-52 | Loading little-endian bytes and storing them gives the same bytes |
| Asm.DecodeEncode | src/microjit/jit_x86_64.cpp:697-720 | Storing a number that fits and loading it gives the same number |
| Asm.LowMerge | src/microjit/jit_x86_64.cpp:556-560 | Writing the low bytes of a register and reading them back, at every width |
| Bytes.ScopeDisjoint | src/microjit/jit.cpp:42-53 | Two variables in scope at once share no byte |
| Bytes.PutRefines | src/microjit/jit_x86_64.cpp:378-407 | Writing a variable's bytes gives it its value and changes no other variable, nor the saved pointer, nor the argument block, nor anything above the frame |
| Bytes.Above | src/microjit/jit_x86_64.cpp:1137-1187 | What is below the frame does not matter to the store |
| Bytes.VarCopyRuns | src/microjit/jit_x86_64.cpp:26-52 | The copy sequence puts the source's bytes, or what the copy constructor makes of them, at the destination and nowhere else |
| Bytes.CopyArg | src/microjit/jit_x86_64.cpp:143-150 | Copying an argument finds it through the saved pointer at its slot |
| Bytes.CopyVar | src/microjit/jit_x86_64.cpp:151-158 | Copying a variable writes the target's bytes and nothing else |
| Bytes.CopyExpr | src/microjit/jit_x86_64.cpp:986-1048 | A binary operation writes its value to the target's bytes and nothing else, also when the target is an operand |
| Bytes.CopyImm | src/microjit/jit_x86_64.cpp:441-465 | An immediate's bytes are written to the target and nothing else |
| Bytes.ComparisonRuns | src/microjit/jit_x86_64.cpp:850-909 | The comparison sequence leaves 1 in al if the order holds of the values, otherwise 0 |
| Bytes.ArithmeticRuns | src/microjit/jit_x86_64.cpp:814-848 | The arithmetic sequence leaves the wrapped result in rax |
| Bytes.DivisionRuns | src/microjit/jit_x86_64.cpp:834-844 | The division sequence leaves quotient or remainder in rax |
| Bytes.ConstructRuns | src/microjit/jit_x86_64.cpp:122-129 | The constructor is called on the variable's address |
| Bytes.ConvertRuns | src/microjit/jit_x86_64.cpp:240-249 | The converter is given both variables' addresses |
| Calls.PushesRun | src/microjit/jit_x86_64.cpp:1137-1180 | The arguments of a call go to their slots below the frame, first one highest, and nothing above changes |
| Calls.CalleeSees | src/microjit/jit_x86_64.cpp:1137-1187 | What the caller pushed is what lies at the slots of the callee's own table |
| Calls.CallAligned | src/microjit/jit_x86_64.cpp:1138-1187 | The stack pointer is a multiple of 16 at the call, as section 3.2.2 of the System V AMD64 ABI asks |
| Calls.HeadRuns | src/microjit/jit_x86_64.cpp:1129-1184 | Up to the call, the stack pointer goes down by the block's size, the arguments are at their slots, and nothing above changes |
| Calls.TailRuns | src/microjit/jit_x86_64.cpp:1189-1240 | After it, what lies at the block's floor goes to the returned variable and the stack pointer is back at the frame's bottom |
| Calls.InvokeRuns | src/microjit/jit_x86_64.cpp:1129-1240 | A call restores the stack pointer, writes the result to the returned variable and changes nothing else from the frame's bottom up |
| Calls.InvokeRefines | src/microjit/jit_x86_64.cpp:1129-1240 | A call means on bytes what it means on named variables |
| EndToEnd.PrepareReport | src/microjit/jit.cpp:11-81 | For every program and argument list there is a report the theorems below apply to, at every aligned frame address below its argument block |
| EndToEnd.OpRefines | src/microjit/jit_x86_64.cpp:121-258 | Every operation the program can perform on named variables is performed on the bytes with the same result |
| EndToEnd.TestRefines | src/microjit/jit_x86_64.cpp:1068-1124 | A condition leaves its truth in al |
| EndToEnd.StoreRefines | src/microjit/jit_x86_64.cpp:205-212 | The returned variable goes to the floor of the argument block and disturbs neither variables nor arguments |
| EndToEnd.MovesKept | src/microjit/jit.cpp:39-77 | Declaring, entering, going on and leaving keep the frame in step with the variables in scope, which at every point are exactly those declared that are visible there |
| EndToEnd.LeaveKeepsValues | src/microjit/jit_x86_64.cpp:231-238 | When a body is left, the variables visible outside it, and no others, are still in scope, each with its value, and nothing else has changed |
| Progress.OpExact | src/microjit/jit_x86_64.cpp:121-258 | An operation on visible variables that have been given values, of the widths it works with, is performed if and only if a quotient in it has a divisor other than zero and a dividend not negative, and then gives its variable a value of its size |
| Progress.OnlyReadyRuns | src/microjit/jit_x86_64.cpp:121-258 | And no other operation is performed: in each state those are exactly the ones |
| Progress.OnlyReadyTests | src/microjit/jit_x86_64.cpp:1068-1124 | A condition is decided if and only if it is a comparison of such variables or immediates of its width |
| Progress.OnlyReadyReturns | src/microjit/jit_x86_64.cpp:205-212 | A variable is returned if and only if it is visible, has been given a value, and has the size of the function's result |
| Progress.StoreTotal | src/microjit/jit_x86_64.cpp:205-212 | What is returned is the variable's value, or a copy of the object, and no variable changes |
| Progress.CheckKeeps | src/microjit/jit_x86_64.cpp:231-310 | What was given a value before a scope and is visible after it still has one |
| Progress.Proceeds | src/microjit/jit_x86_64.cpp:107-364 | A scope that the check of visibility, given values and widths accepts, which follows every way that conditions may decide, is left as the check says, from every state good enough for it |
| CheckedPrograms.CheckedProceeds | src/microjit/jit_x86_64.cpp:82-377 | A checked program never gets stuck, whatever its arguments, if some invariant of its runs rules out zero divisors and negative dividends where it divides |
| CheckedPrograms.SafeProceeds | src/microjit/jit_x86_64.cpp:834-844 | Nor does one that divides by constants only, and only what is unsigned or constant |
| CheckedPrograms.CheckedComputes | src/microjit/jit_x86_64.cpp:82-377 | The code of a faithful checked program never faults, halts if and only if the program does, and halts with the program's answer only |
| CheckedPrograms.LinkedProceeds | src/microjit/jit_x86_64.cpp:1129-1187 | A checked program never gets stuck either when its calls are answered by the programs it calls |
| CheckedPrograms.AnswerIs | src/microjit/jit_x86_64.cpp:205-212 | The answer of a callee is what its program returns in its one final state, and has the declared size |
| CheckedPrograms.HalvingChecked | src/microjit/jit_x86_64.cpp:231-310 | A program is checked whose variable is used and set in a loop, in a branch inside it and after a nested scope |
| EndToEnd.PrologueEnters | src/microjit/jit_x86_64.cpp:95-100 | After the prologue, whoever filled the block as callers do finds its arguments to be the function's |
| EndToEnd.DestroyRuns | src/microjit/jit_x86_64.cpp:409-439 | A destructor call loads the quadword at the slot, is given it, and leaves memory and stack pointer alone |
| EndToEnd.RefinedComputes | src/microjit/jit_x86_64.cpp:82-377 | For any meaning of operations on variables and on the processor that keep the frame in step, a halting program's code halts with its answer |
| EndToEnd.CompiledComputes | src/microjit/jit_x86_64.cpp:82-377 | Whenever a faithful program halts, its compiled code on bytes halts, with the returned value at the floor of the block and every other byte above the frame as it was |
| EndToEnd.CompiledOnlyComputes | src/microjit/jit_x86_64.cpp:82-377 | If the program never gets stuck, the code never faults, and whatever it halts with is the program's answer |
| Linked.LinkedComputes | src/microjit/jit_x86_64.cpp:1129-1187 | Over any set of compiled functions that call each other and themselves: whenever a program halts whose calls, at most n deep, are answered by the programs they call, its code halts on a processor that runs the callees' own code, prologue included, with the program's answer |
| Linked.LinkedOnlyComputes | src/microjit/jit_x86_64.cpp:1129-1187 | And if that program never gets stuck, its code never faults, in itself or in a callee, and halts only with the program's answer |
| Linked.CalleeReturns | src/microjit/jit_x86_64.cpp:95-100 | A callee entered on the block a caller has pushed returns with its program's answer at the block's floor, and the caller's memory from the frame's bottom up as it was |
| Linked.LinkItself | src/microjit/jit_x86_64.cpp:95-100 | For every faithful program there is a linkage the two theorems apply to, in which it may call itself |
| ArgBlock.SlotsDisjoint | src/microjit/jit.cpp:20-30 | Slots are disjoint, inside the block and clear of the return value |
| ArgBlock.CreateArgsMap | src/microjit/jit.cpp:20-30 | The callee's table holds the slots |
| ArgBlock.CreateIndexes | src/microjit/instructions.h:90-98 | The declaration's table holds, for each argument, the size of those after it |
| ArgBlock.TablesAgree | src/microjit/jit.cpp:24-30 | The two tables differ by the return size and a padding of less than 16 |
| ArgBlock.MoveArgument | src/microjit/orchestrator.h:39-48 | One argument is written right below the others |
| ArgBlock.PushArguments | src/microjit/orchestrator.h:260-266 | The C++ caller fills the slots, and nothing below them |
| ArgBlock.PassLeftToRight | src/microjit/trampoline.h:105-130 | The native trampoline reads the slots going down |
| ArgBlock.PassRightToLeft | src/microjit/trampoline.h:153-177 | And going up, with the same values |
| ArgBlock.HoldsUnique | src/microjit/trampoline.h:105-164 | A block determines the arguments it holds, whoever reads it |
| ArgBlock.CallNative | src/microjit/trampoline.h:132-150 | A native function receives the caller's arguments in either order, and its result is stored if it has arguments; one without arguments exists in the left-to-right build only |
| Builder.RectifiedScope.PushInstruction | src/microjit/instructions.cpp:40-43 | Appends one instruction and keeps the offsets in order |
| Builder.RectifiedScope.CreateScope | src/microjit/instructions.cpp:88-96 | Attaches a child if and only if this is its parent |
| Builder.RectifiedScope.ElseBranch | src/microjit/instructions.cpp:134-147 | Accepts an else if and only if the last instruction is a branch of any kind |
| Builder.LastOffset | src/microjit/instructions.cpp:136-139 | The offset of the last branch pushed tells whether the last instruction is a branch |
| Builder.BuiltElsesFollowBranches | src/microjit/instructions.cpp:134-147 | Every program that can be built meets the guard of the branch report |
| Builder.RectifiedScope.IfBranch | src/microjit/instructions.cpp:122-132 | Accepts a condition parsed for this scope and no other, and any body, whosever child it is |
| Builder.RectifiedScope.WhileBranch | src/microjit/instructions.cpp:149-159 | As for an if |
| Builder.RectifiedScope.OpenScope | src/microjit/instructions.h:877-881 | The front end makes the body itself, as this scope's child, so that every body is given to its parent |
| Builder.RectifiedScope.OpenIf | src/microjit/instructions.h:882-887 | As for a nested scope |
| Builder.RectifiedScope.OpenElse | src/microjit/instructions.h:888-892 | And for an else, if it is accepted |
| Builder.RectifiedScope.OpenWhile | src/microjit/instructions.h:893-897 | And for a loop |
| Builder.AcceptedWhenEnclosed | src/microjit/instructions.cpp:63-66 | In every built tree whose bodies are given to their parents, a use is accepted in the scope at a path if and only if the variable's owner is the object at one of the path's prefixes |
| Builder.AcceptedIsVisible | src/microjit/instructions.h:631-633 | Of an accepted use that prefix is the only one, the tree declares the variable there, and the use comes after the declaration if and only if the declaration's offset is below the path's next index |
| Builder.AttachedDecides | src/microjit/instructions.cpp:121-159 | In a built tree, acceptance is that of the enclosing scopes, for all scopes and variables, if and only if every body was given to its parent, which the branch methods do not check |
| Builder.BorrowBody | src/microjit/instructions.cpp:149-159 | A child of one scope given to another as a loop body accepts a variable that is nowhere in the tree it is in |
| Builder.DeclareBehind | src/microjit/instructions.h:631-633 | A parent extended after its child was attached gives an accepted use before the declaration |
| Builder.CreateInvocation | src/microjit/instructions.cpp:175-224 | A call is accepted if and only if counts and types agree, and its size is the callee's total |
| CacheCalls.SectionDid | src/microjit/runtime_agent.cpp:188-242 | From taking the lock to releasing it, in any run: a look-up reports the host's entry and changes nothing, or puts a null entry where there was none; publishing makes the compiled pointer the host's entry, whatever was there before; a removal leaves no entry and reports if and only if there was one; other hosts' entries stay |
| CacheCalls.CallGives | src/microjit/runtime_agent.cpp:180-242 | A removal ends with no entry for its host; a recompilation returns what it compiled, which is then the entry unless it failed; a get does the same if it compiled, which it does once at most, and otherwise returns a pointer that was the entry during the call |
| CacheCalls.NeverStuck | src/microjit/runtime_agent.cpp:188-242 | A thread in a call can step, or the thread that has the lock can |
| CacheCalls.RemovesAlone | src/microjit/runtime_agent.cpp:230-242 | While nobody has the lock, a thread by itself has a host's entry removed, an abandoned one too |
| Cache.LockDiscipline | src/microjit/runtime_agent.cpp:188-242 | The write lock is held exactly between a thread's two lock operations, released once by its owner on every path, and the map changes only under it |
| Cache.CacheInvariant | src/microjit/runtime_agent.cpp:180-242 | In every reachable state, with recompilation, removal and failures, every pointer in the map or in a thread's hands for a host came from compiling it, and a null entry stands for a compilation under way or failed |
| Cache.SpinJustified | src/microjit/runtime_agent.cpp:189-196 | A thread goes round the loop only if another is compiling its host, or that compilation failed |
| Cache.SingleCompilation | src/microjit/runtime_agent.cpp:180-200 | With get_or_create and successful compilations only, no host is compiled twice, and its entry is null if and only if a thread is compiling it, and then one |
| Cache.CallsAgree | src/microjit/runtime_agent.cpp:180-214 | All calls for a host return the same pointer, at all times |
| Cache.FailureAbandons | src/microjit/runtime_agent.cpp:206-208 | The compiling thread abandons the null entry if and only if the compilation fails |
| Cache.AbandonedForever | src/microjit/runtime_agent.cpp:189-196 | An abandoned entry stays null, and every thread waiting for it waits, until somebody recompiles or removes the host |
| ThreadPools.TicketsAccounted | src/microjit/thread_pool.h:103-134 | With at most 255 workers, over every interleaving, tickets never wrap, never exceed the workers outside a clean-up and never fall short of them while draining |
| ThreadPools.NoExcessTermination | src/microjit/thread_pool.h:130-134 | Single terminations never remove more workers than were asked for |
| ThreadPools.WrapReached | src/microjit/thread_pool.h:130-134 | From the initial pool, 256 allocations and 255 single terminations lead to 255 tickets and 256 workers, and one more leaves no ticket |
| ThreadPools.WrapsExactly | src/microjit/thread_pool.h:130-134 | Over the runs from the initial pool that never have more than a given number of workers, a single termination can lose tickets to the byte if and only if that number is above 255 |
| ThreadPools.TerminatedExactly | src/microjit/thread_pool.h:130-134 | Of a number of single terminations in a row, in any pool: up to 255 workers they issue that many tickets but no more than one per worker, and beyond that the byte counts on modulo 256 |
| ThreadPools.CanDrain | src/microjit/thread_pool.h:195-207 | From every draining state there is a run that leaves no worker |
| ThreadPools.DrainsExactly | src/microjit/thread_pool.h:195-207 | The 255 tickets of terminate_all_workers drain a pool if and only if it has at most 255 workers |
| ThreadPools.TasksConserved | src/microjit/thread_pool.h:108-154 | In every reachable state each submitted task is waiting, run by one worker, or done: exactly one of them |
| ThreadPools.BestFirst | src/microjit/thread_pool.h:121-123 | A worker that starts a task passes over no better one in the queue |
| ThreadPools.BestSubmittedFirst | src/microjit/thread_pool.h:111-148 | By the priorities tasks were submitted with: when a worker starts one, none submitted with a better priority is still waiting |
| ThreadPools.QueuedAsSubmitted | src/microjit/thread_pool.h:141-148 | What waits in the queue is a task somebody submitted, under the priority it was submitted with |
| ThreadPools.SubmittedOnce | src/microjit/thread_pool.h:141-148 | Under one priority: no task is submitted twice |
| ThreadPools.ThreadPool.AllocateWorker | src/microjit/thread_pool.h:103-129 | Adds a worker, or nothing during a clean-up |
| ThreadPools.ThreadPool.TerminateWorker | src/microjit/thread_pool.h:130-134 | Issues a ticket, or nothing when each worker has one |
| ThreadPools.ThreadPool.BatchTerminateWorkers | src/microjit/thread_pool.h:186-190 | In any pool, does as many single terminations as asked for: up to 255 workers, that many tickets capped at one per worker; beyond, the byte counts on and may wrap |
| ThreadPools.ThreadPool.WorkerTurn | src/microjit/thread_pool.h:111-124 | A woken worker takes a ticket and leaves if there is one, otherwise takes a task of the best priority out of the queue |
| ThreadPools.ThreadPool.QueueTask | src/microjit/thread_pool.h:141-154 | The queue gains exactly the task under the priority given |
| ThreadPools.ThreadPool.BeginTerminateAll | src/microjit/thread_pool.h:196-202 | Starts a clean-up unless one is under way or there is nobody |
| ThreadPools.ThreadPool.EndTerminateAll | src/microjit/thread_pool.h:203-206 | Ends it with no ticket left |
| PriorityQueues.SiftUpHeap | src/microjit/priority_queue.h:41-48 | heapify_up restores the heap order after a push |
| PriorityQueues.SiftDownHeap | src/microjit/priority_queue.h:49-63 | heapify_down restores it after a pop |
| PriorityQueues.PushedIsHeap | src/microjit/priority_queue.h:76-79 | A push keeps the order and adds exactly its node |
| PriorityQueues.PoppedContents | src/microjit/priority_queue.h:80-87 | A pop removes exactly the top node |
| PriorityQueues.TopIsBest | src/microjit/priority_queue.h:82-82 | No node is better than the top one, for any strict order with ties |
| PriorityQueues.DrainSorts | src/microjit/priority_queue.h:88-92 | Taking everything out yields a permutation sorted best first |
| PriorityQueues.PriorityQueue.HeapifyUp | src/microjit/priority_queue.h:41-48 | The loop computes the recursive sift |
| PriorityQueues.PriorityQueue.HeapifyDown | src/microjit/priority_queue.h:49-63 | The loop computes the recursive sift |
| PriorityQueues.PriorityQueue.Push | src/microjit/priority_queue.h:76-79 | Keeps the heap and the multiset |
| PriorityQueues.PriorityQueue.Pop | src/microjit/priority_queue.h:80-87 | Returns a best element, or fails when there is none |
| PriorityQueues.PriorityQueue.TryPop | src/microjit/priority_queue.h:88-92 | Succeeds if and only if there is one |
| RefCount.RefInvariant | src/microjit/helper.h:33-116 | In every reachable state of any number of handles, an object's count is the number of handles that have incremented and not yet decremented it, and it is freed once, by the handle that took it to zero |
| RefCount.NoRevival | src/microjit/safe_refcount.h:103-113 | No increment succeeds after zero, and none touches a freed object |
| RefCount.FreedWhenLastGoes | src/microjit/helper.h:43-49 | Between operations, an object has been freed if and only if no handle refers to it |
| RefOperations.CopyEnds | src/microjit/helper.h:36-42 | Whatever other handles do meanwhile, a copy ends with the handle where its source is; it lets go once of what it held, deletes that if and only if nothing was left, and then counts itself once on the source's object; a copy of the same pointer does nothing |
| RefOperations.DropEnds | src/microjit/helper.h:43-49 | A drop ends with the handle null, having let go once of what it held |
| RefOperations.Completes | src/microjit/safe_refcount.h:103-113 | Any copy or drop can be made, and left alone, without spurious failures, it is finished within six steps |
| RefOperations.FinishesAlone | src/microjit/safe_refcount.h:103-113 | So is any operation under way |
| RefCount.LoadDecides | src/microjit/helper.h:36-42 | The handle would point at an uncounted object if and only if the count it loads is zero, which a live source rules out |

## Left out

- Preservation.PreservesMeaning: holds for the programs that `Faithful` describes, and by `Exactness.PreservedExactly` for no others that link; a program that does not link has no code that can be assembled (`Labels.CompileResolves`).
- EndToEnd.CompiledComputes: operations that the emitted code does not serve (multiplication and division of single bytes, negative dividends, zero divisors, arithmetic used as a condition, non-primitive immediates and call arguments, operands of another width) get the named program stuck, and nothing is promised about those runs; `Progress` tells which programs are free of them. The instructions for an object given as an immediate are modelled, what they do to it is not.
- CheckedPrograms.CheckedProceeds: the check takes every condition to go either way, so it refuses some programs that no run gets stuck in.
- Bytes.VarCopyRuns: copy constructors and converters are functions of the bytes they are given and touch no other memory of the function; what they leave in the registers but rsp is arbitrary.
- Bytes.Above: addresses are unbounded integers; a frame at the edge of the address space is not modelled.
- Destruction.DestructionBalance: counts the calls made for each variable. What they are called on is the subject of `DestructorCalls`; destructors are taken to write nothing in the function's memory.
- Linked.LinkedComputes: assumes room on the stack for the given depth, a bound on what the trampoline uses of it, and that the trampoline hands over the block and an aligned stack pointer; calls of native functions stay functions of their arguments, as in `EndToEnd`.
- RefCount.RefInvariant: fewer than 2^32 handles; a copy's source is not changed while the copy is under way.
- ThreadPools.TicketsAccounted: at most 255 workers at any time, as the byte needs.
- Instruction offsets in the builder are unbounded; the templates' own type checks and the four `parse` overloads only compare types.
- Passing an argument straight through as an argument of a call, and destroying non-primitive arguments and results after it.
- AsmJit, the encoding of instructions, executable memory and its release; which runtime `remove_function` releases into.
- Floating-point operands and comparisons.
- `function_compiled` of the cache, which only reads under the shared lock.
- The command queue and its handler, the unsynchronised handler, and the orchestrator's instance plumbing.
- Threads, condition variables, futures, disposal of finished workers, and fairness: that a thread which can step does is not promised.
- The generated primitive converters; code generation refuses to use them.
