# RT-Thread kernel and finsh shell: verified models

The model follows the code of RT-Thread 1.2 as it is: same branches, same constants, same error cases. Objects
whose fields the C code changes in place are classes with those fields. The links of heaps, page lists, timers and
message blocks are maps from addresses to link fields, with ghost sequences that say what is linked; waiting lists,
ready queues and the lists of slab zones are sequences, and `rt_list.dfy` proves what their insertions and removals do
to the links. Each method is proved against a specification, and the properties of a component are proved about that
specification. Sections that run with interrupts disabled are one atomic step, and a woken thread continues in a later
step. Every invariant is established by a constructor that models the initialisation of the code, and kept by every
operation.

`dafny verify dfyconfig.toml` checks everything.

## What is modelled

**The finsh shell, from tokens to values** (`finsh_*.dfy`). Expression trees with variables, assignment through
pointers, steps, address-of, dereference and calls; the recursive-descent parser over the node table with its
one-token replay; the type check and the byte-code compiler over the same table; the stack machine. `CompilerCorrect`
says that the machine computes what a direct evaluator says, `ParserReads` and `CanonicalUnique` that the parser
returns the one tree that C precedence allows, `TwoOperators` which operator binds tighter, `LineReads` what any line
of statements is read as, and `RunTokens` puts parser, compiler and machine together. `Emits` and `Errors` say what is
emitted, and what is refused, for every expression of four-byte variables. It is right if calls have at most sixteen
arguments, steps apply to finsh variables (`StepExact` says exactly when another step is right), and no operator has a
call as its first operand (`BinaryExact`, `ComplementExact` and `LoadExact` say exactly when it is right with one; an
assignment is then refused). `FinshLaws` and `AluMeans` say what lines and operators mean without the terms of the
parser and the machine, down to the number that `a p b q c ;` gives (`RunNumbers`). The heap of the shell with its
garbage collector is `finsh_heap.dfy`.

**Heaps** (`blocks.dfy`, `memheap.dfy`, `small_mem.dfy`, `pages.dfy`, `zones.dfy`, `slab.dfy`, `heap_laws.dfy`).
Blocks tile the region, unused neighbours are always merged, accounting is exact, blocks in use never overlap or move,
and their bytes survive every operation (slab.c: their addresses and sizes). Each failure of an allocation is
characterised exactly, and so is the largest use that the heaps record. For the page allocator and the finsh heap the
blocks in use determine the free list, so releases commute and undo allocations.

**Timers** (`timer_spec.dfy`, `timer_stops.dfy`, `timer_list.dfy`). The skip list refines stable insertion into one
sorted list for any number of levels and any tower heights; timers fire exactly at their deadline, in order, periodic
ones once each period, others once, and none after it was stopped, also when the 32-bit tick wraps around.

**Scheduler** (`bitmap.dfy`, `scheduler.dfy`, `scheduler_laws.dfy`). Both bitmap variants agree with the ready queues
over every run, and the lookup finds the most urgent ready thread.

**Inter-process communication** (`ipc_list.dfy`, `ipc_order.dfy`, `mailbox.dfy`, `mailbox_calls.dfy`,
`message_queue.dfy`, `message_delivery.dfy`, `message_calls.dfy`, `event.dfy`, `event_laws.dfy`, `mutex.dfy`,
`mutex_calls.dfy`). Each object is a protocol over all interleavings of atomic steps: no lost wakeups, conservation of
mails and message blocks, messages delivered first in, first out with the bytes that were given, every call returning
the code of what it did, the waiting thread woken that came first or is the most urgent, no blocked thread with a
satisfied event condition and every woken one with what it asked for, priority inheritance with waiters served first
come, first served.

## Where the code does not do what one would expect

Each of these is a lemma with the input that shows it, or an exact condition in a contract.

- An operator whose first operand goes to a call has no code: `f() + 1` leaves both operands on the stack and gives f()
  (`OperatorEmittedIffDword`, `CallAsFirstOperandFails`, `BinaryExact`), `~f()` and `*f()` are f()
  (`ComplementExact`, `LoadExact`), and `*f() = x` is refused (`AssignmentRefusedIffCall`).
- ++ and -- of a dereferenced pointer change nothing (`PreStepOfDerefIsDropped`, `PostStepOfDerefIsDropped`). Before a
  system variable they read the word at its slot, after one they change the word at its slot; `StepExact` says for every
  lvalue when a step is right.
- An empty statement later in a line makes the parser lose the following token (`EmptyStatementDropsToken`); a line
  keeps all its tokens exactly if such statements come in even runs (`KeepsAllIffEven`).
- proc_primary_expr reads expressions in parentheses, but no parenthesis reaches it (`ParenthesisRefused`).
- mem.c: a heap without room for one minimal block is accepted, and then a small request never ends
  (`SearchNeverEnds`). After an in-place shrink the lowest-free hint can be too high; `Shrink` says exactly when it
  stays lowest. With the hint at the end every allocation fails (`HintAtEndFindsNothing`). realloc to zero bytes does not free:
  it leaves an empty payload, or returns null and keeps the block (`Resize`).
- memheap.c: an allocation also fails if the aligned size equals all that is available (`MemHeap.AllocFails`).
- A FIFO mutex hand-off does not boost the new owner (`HandOff`, `FifoHandOffFails`). A thread that becomes the owner
  of a mutex while it is boosted keeps the boost for good, be it that it takes the mutex (`SecondMutexKeepsBoost`) or
  that it is handed it, having been boosted while it waited (`HandOffKeepsBoost`). The last release leaves a thread
  at its own priority exactly if it was at that when it became the owner (`ReleaseRestores`, `TakeFreeExact`); with no
  other mutex, that is when it called take (`WaitsUnchanged`). Releasing an inner mutex can make its owner less
  urgent than waiters of the outer one (`InnerReleaseDropsBoost`, and `InnerRelease` for exactly when). `hold` has
  eight bits (`NestingDepth`).
- slab.c documents that all power-of-two allocations are aligned to their size; that is so up to a page
  (`SmallAligned`), and for larger chunks exactly if the zone is aligned (`AlignedAsZone`, `LargeNotAligned`).

## Model

| member | source | states |
|---|---|---|
| `Machine.SetGet32` | rt-thread-home/os-app/components/finsh/finsh.h:38-55 | FINSH_GET32 reads back every word that FINSH_SET32 stored, low byte first |
| `Machine.LoadAfterStore` | rt-thread-home/os-app/components/finsh/finsh_ops.c:375-435 | a dword that was stored is what loads from its address, also around the end of the address space, and no other byte changes |
| `Machine.LoadIs` | rt-thread-home/os-app/components/finsh/finsh_ops.c:375-402 | a dword that loads is made of the four bytes from its address on, low byte first, also around the end of the address space |
| `FinshAlu.AluMeans` | rt-thread-home/os-app/components/finsh/finsh_ops.c:42-295 | what each operator of C has to do with its operands: sum, difference and product up to multiples of 2^32, quotient towards zero with a remainder of the sign of the dividend, bit by bit for & \| ^ and shifts, the right shift repeating the sign; and when there is no result |
| `FinshAlu.MeansOne` | rt-thread-home/os-app/components/finsh/finsh_ops.c:42-295 | this leaves no choice: two results that mean what an operator means are equal |
| `FinshAlu.ComplementMeans` | rt-thread-home/os-app/components/finsh/finsh_ops.c:245-251 | a complement turns every bit over |
| `FinshVm.OpTableInvertsOpcode` | rt-thread-home/os-app/components/finsh/finsh_ops.c:571-621 | each opcode number emitted by the compiler selects its own entry of op_table |
| `FinshVm.Vm.Binary` | rt-thread-home/os-app/components/finsh/finsh_ops.c:42-45 | a binary operation replaces the two top slots by the value that the C operator means for them, and keeps the slots below |
| `FinshVm.Vm.Invert` | rt-thread-home/os-app/components/finsh/finsh_ops.c:245-251 | a complement turns over every bit of the top slot |
| `FinshVm.Vm.Call` | rt-thread-home/os-app/components/finsh/finsh_ops.c:444-569 | a call passes the arguments in order, first one deepest, and leaves the result in the place of function and arguments |
| `FinshVm.Vm.Access` | rt-thread-home/os-app/components/finsh/finsh_ops.c:317-435 | loading a constant, loading and storing a dword on the slot array do what the transition function of the machine says |
| `FinshVm.Vm.Operate` | rt-thread-home/os-app/components/finsh/finsh_ops.c:48-569 | the operations on the slot array do what the transition function of the machine says |
| `FinshVm.Vm.Run` | rt-thread-home/os-app/components/finsh/finsh_vm.c:47-72 | the fetch/execute loop on the array refines the recursive execution of the whole text segment |
| `FinshCompiler.Emits` | rt-thread-home/os-app/components/finsh/finsh_compiler.c:43-757 | for every expression of four-byte variables and constants, whatever its operands and steps, type check and code emission of its tree give exactly the code of the expression, followed by that of its siblings |
| `FinshCalls.OperatorEmittedIffDword` | rt-thread-home/os-app/components/finsh/finsh_compiler.c:217-283 | the opcode of a binary operator is emitted if and only if its first operand is not, going first all the way, a call |
| `FinshCalls.ComplementEmittedIffDword` | rt-thread-home/os-app/components/finsh/finsh_compiler.c:266-270 | so is that of a complement |
| `FinshCalls.LoadEmittedIffDword` | rt-thread-home/os-app/components/finsh/finsh_compiler.c:718-740 | and that of a dereference |
| `FinshCalls.AssignmentEmittedIffDword` | rt-thread-home/os-app/components/finsh/finsh_compiler.c:311-371 | and that of an assignment through a pointer |
| `FinshCalls.AssignmentRefusedIffCall` | rt-thread-home/os-app/components/finsh/finsh_compiler.c:311-371 | an assignment through a pointer is refused, with FINSH_ERROR_UNKNOWN_TYPE, if and only if the pointer goes first to a call, or something in it is refused |
| `FinshCalls.BinaryExact` | rt-thread-home/os-app/components/finsh/finsh_compiler.c:217-283 | compiled and run, a binary operation gives the value and the memory of the evaluator if and only if its first operand does not go to a call |
| `FinshCalls.ComplementExact` | rt-thread-home/os-app/components/finsh/finsh_compiler.c:266-270 | so does a complement; that of a call is the call itself |
| `FinshCalls.LoadExact` | rt-thread-home/os-app/components/finsh/finsh_compiler.c:718-740 | a dereference does also if the word at the address that the call returns is this address; that of a call is the call itself |
| `FinshErrors.Errors` | rt-thread-home/os-app/components/finsh/finsh_compiler.c:311-371 | in every expression the compiler refuses exactly the assignments through pointers that go first to a call, anywhere in it, and the type check refuses nothing |
| `FinshErrors.LineErrors` | rt-thread-home/os-app/components/finsh/finsh_compiler.c:903-937 | a line is refused if and only if one of its statements has such an assignment |
| `FinshErrors.UnknownRefused` | rt-thread-home/os-app/components/finsh/finsh_compiler.c:759-901 | the type check sets its error if and only if an expression has a variable of unknown type, anywhere in it |
| `FinshCalls.OperatorWidths` | rt-thread-home/os-app/components/finsh/finsh_compiler.c:217-371 | operators are emitted in the width of their node: byte, word or dword |
| `FinshCalls.StepWidths` | rt-thread-home/os-app/components/finsh/finsh_compiler.c:373-712 | so are steps of variables, but that before a variable the new value is loaded again as four bytes |
| `FinshCalls.VariableWidths` | rt-thread-home/os-app/components/finsh/finsh_compiler.c:130-195 | variables are loaded in the width of their type, or their address; those of type void or pointer to void not at all |
| `FinshSteps.PreStepOfDerefIsDropped` | rt-thread-home/os-app/components/finsh/finsh_compiler.c:373-533 | ++*p and --*p compile to p alone |
| `FinshSteps.PostStepOfDerefIsDropped` | rt-thread-home/os-app/components/finsh/finsh_compiler.c:535-712 | (*p)++ and (*p)-- compile to what *p does |
| `FinshSteps.StepEmits` | rt-thread-home/os-app/components/finsh/finsh_compiler.c:373-712 | what ++ and -- before and after a four-byte lvalue emit; it is the right code if and only if the lvalue is a finsh variable |
| `FinshSteps.StepExecutes` | rt-thread-home/os-app/components/finsh/finsh_ops.c:317-442 | what that code computes: the update always goes through the slot of a finsh variable at that descriptor, and that of a dereferenced pointer is missing |
| `FinshSteps.StepExact` | rt-thread-home/os-app/components/finsh/finsh_compiler.c:373-712 | compiled and run, a step gives the value and the memory of the evaluator if and only if the lvalue is a finsh variable, or a system variable whose slot holds the same word (before) or is the variable itself (after); never for a dereferenced pointer |
| `FinshCorrect.Executes` | rt-thread-home/os-app/components/finsh/finsh_ops.c:48-569 | from any stack and memory in which an expression is defined, its code pushes exactly its value, leaves exactly its memory, and needs at most two slots more than it has nodes |
| `FinshCorrect.ExecutesAll` | rt-thread-home/os-app/components/finsh/finsh_compiler.c:903-937 | statements run one after the other, each value but the last popped |
| `FinshCorrect.CompilerCorrect` | rt-thread-home/os-app/components/finsh/finsh_compiler.c:903-937 | compiler correctness for every line of compilable statements defined from a memory: type check, compile and run the whole text segment; the machine ends with the memory of the evaluator and the last value as its only slot |
| `FinshCalls.CallAsFirstOperandFails` | rt-thread-home/os-app/components/finsh/finsh_compiler.c:217-283 | with a call as first operand the machine leaves both operands, and the result slot holds the left one |
| `FinshNodes.Compiler.TypeCheck` | rt-thread-home/os-app/components/finsh/finsh_compiler.c:759-901 | the pass over the node table turns the entries of a tree into those of the checked tree and touches no other entry; an error is set exactly for an identifier of unknown type |
| `FinshNodes.Compiler.Compile` | rt-thread-home/os-app/components/finsh/finsh_compiler.c:43-757 | the recursive pass appends exactly the code of the tree in the table to the text segment, and leaves the last error of its nodes |
| `FinshNodes.Compiler.Statement` | rt-thread-home/os-app/components/finsh/finsh_compiler.c:903-937 | a statement is cut off from its siblings before it is compiled, and they stay intact |
| `FinshNodes.Compiler.CompilerRun` | rt-thread-home/os-app/components/finsh/finsh_compiler.c:903-937 | the text segment holds the code of all statements with pops in between, then zeros; the error is the last one set |
| `FinshNodes.RunLine` | rt-thread-home/os-app/components/finsh/shell.c:186-220 | compiling and running the entries of a line gives the value of its last statement and its memory; a refused line is not run |
| `FinshGrammar.Trip` | rt-thread-home/os-app/components/finsh/finsh_parser.c:467-807 | the tokens of an expression that fits a precedence level parse at that level to exactly its tree and leave what follows |
| `FinshGrammar.CallTrip` | rt-thread-home/os-app/components/finsh/finsh_parser.c:758-807 | a call with any arguments parses to its tree |
| `FinshGrammar.ArgsTrip` | rt-thread-home/os-app/components/finsh/finsh_parser.c:864-887 | arguments separated by commas parse to the chain of their trees |
| `FinshGrammar.AssignTrip` | rt-thread-home/os-app/components/finsh/finsh_parser.c:442-461 | assignments, nested to the right, parse to their trees |
| `FinshGrammar.LineTrip` | rt-thread-home/os-app/components/finsh/finsh_parser.c:916-998 | a line of statements, each with its semicolon, parses to exactly the chain of their trees |
| `FinshGrammar.EmptyStatementDropsToken` | rt-thread-home/os-app/components/finsh/finsh_parser.c:975-981 | an input on which an empty statement makes the parser lose the next token: `1 ; ; 2 ;` is read as `1` |
| `FinshGrammar.ParenthesisRefused` | rt-thread-home/os-app/components/finsh/finsh_parser.c:675-697 | an operand in parentheses is an error, whatever follows: the parenthesis is taken for a cast |
| `FinshLine.RunOfEmpties` | rt-thread-home/os-app/components/finsh/finsh_parser.c:975-981 | a run of empty statements loses the token behind it if and only if its length is odd |
| `FinshLine.LineReads` | rt-thread-home/os-app/components/finsh/finsh_parser.c:916-998 | what every line of statements with any number of further semicolons is read as: all of it up to the first odd run, then the reading of the rest without its first token |
| `FinshLine.KeepsAllIffEven` | rt-thread-home/os-app/components/finsh/finsh_parser.c:916-998 | every statement is read from all of its own tokens if and only if an even number of further semicolons stands before each later statement; then the tree is the chain of all statements |
| `FinshLine.LostZeroIsUnseen` | rt-thread-home/os-app/components/finsh/finsh_parser.c:975-981 | the tree can be that of all statements although a token is lost: `0 - x` without its zero |
| `FinshPrecedence.ReadLevel` | rt-thread-home/os-app/components/finsh/finsh_parser.c:467-668 | the reference: splitting at the last of the loosest operators gives a tree with C precedence and left association whose in-order reading is the token sequence |
| `FinshPrecedence.Read` | rt-thread-home/os-app/components/finsh/finsh_parser.c:442-461 | the same with assignments, which associate to the right |
| `FinshPrecedence.ParserReads` | rt-thread-home/os-app/components/finsh/finsh_parser.c:442-668 | for every sequence of operands joined by \| ^ & << >> + - * / % and =, the parser reads it all up to the token that does not continue it, and returns the tree of the reference |
| `FinshPrecedence.ReadsBack` | rt-thread-home/os-app/components/finsh/finsh_parser.c:442-668 | reading the tokens of any tree with C precedence gives back that tree |
| `FinshPrecedence.CanonicalUnique` | rt-thread-home/os-app/components/finsh/finsh_parser.c:442-668 | two trees with C precedence and the same in-order reading are equal |
| `FinshLaws.TwoOperators` | rt-thread-home/os-app/components/finsh/finsh_parser.c:467-668 | for every two of the ten operators between three operands: products bind tighter than sums, sums than shifts, these than &, then ^, then \|; the tighter one goes first, and else the left one |
| `FinshLaws.ReadTwo` | rt-thread-home/os-app/components/finsh/finsh_parser.c:916-998 | so it is in the node table that the parser leaves |
| `FinshLaws.AssignmentsLast` | rt-thread-home/os-app/components/finsh/finsh_parser.c:442-461 | an assignment takes all that stands to its right, operators and further assignments |
| `FinshLaws.PrefixFirst` | rt-thread-home/os-app/components/finsh/finsh_parser.c:710-750 | a prefix operator takes its operand only |
| `FinshLaws.StepsRead` | rt-thread-home/os-app/components/finsh/finsh_parser.c:727-783 | x++, x--, ++x, --x and &x are read as the four steps and the address of the variable |
| `FinshLaws.CallReads` | rt-thread-home/os-app/components/finsh/finsh_parser.c:784-800 | f(x, y) is read as the call of f with x first and y second |
| `FinshLaws.SignsFirst` | rt-thread-home/os-app/components/finsh/finsh_parser.c:717-726 | a minus sign subtracts from zero, a plus sign does nothing |
| `FinshLaws.BinaryLaw` | rt-thread-home/os-app/components/finsh/finsh_ops.c:42-45 | operands from left to right, and then the operator of C |
| `FinshLaws.ComplementLaw` | rt-thread-home/os-app/components/finsh/finsh_ops.c:245-251 | a complement has every bit of its operand turned over |
| `FinshLaws.AssignmentLaw` | rt-thread-home/os-app/components/finsh/finsh_compiler.c:311-371 | first the place, then the value, which is what the place holds afterwards and what the assignment is worth; no other byte changes |
| `FinshLaws.StepLaw` | rt-thread-home/os-app/components/finsh/finsh_compiler.c:373-712 | a step changes its variable by one; before it the new value counts, after it the old one |
| `FinshLaws.PointerLaw` | rt-thread-home/os-app/components/finsh/finsh_compiler.c:718-744 | *&x is x, &*p is p, and *p is the word at the value of p |
| `FinshLaws.CallLaw` | rt-thread-home/os-app/components/finsh/finsh_compiler.c:285-309 | arguments are evaluated from left to right and passed in this order |
| `FinshLaws.VariableLaw` | rt-thread-home/os-app/components/finsh/finsh_compiler.c:130-195 | a finsh variable is the word at its slot, a system variable that at its address |
| `FinshParser.Scanner.NextToken` | rt-thread-home/os-app/components/finsh/finsh_token.c:80-86 | the next token is the first of those not consumed; a replayed token comes exactly once more |
| `FinshParser.Scanner.Replay` | rt-thread-home/os-app/components/finsh/finsh_token.c:80-86 | after a replay the token just read is the first of those not consumed |
| `FinshParser.Parser.Allocate` | rt-thread-home/os-app/components/finsh/finsh_node.c:45-62 | the first entry that is not in use, or none if all are |
| `FinshParser.Parser.NewAtom` | rt-thread-home/os-app/components/finsh/finsh_node.c:64-202 | a leaf in a fresh entry; an error exactly if the table is full |
| `FinshParser.Parser.MakeSysNode` | rt-thread-home/os-app/components/finsh/finsh_parser.c:897-911 | a node over one or two trees that share no entry; an error exactly if the table is full |
| `FinshParser.Parser.ProcPrimary` | rt-thread-home/os-app/components/finsh/finsh_parser.c:814-857 | literals, identifiers and parenthesised expressions; an unknown identifier and any other token are errors |
| `FinshParser.Parser.PostfixStep` | rt-thread-home/os-app/components/finsh/finsh_parser.c:765-803 | one postfix operator or call wraps the tree read so far |
| `FinshParser.Parser.CallStep` | rt-thread-home/os-app/components/finsh/finsh_parser.c:780-796 | a call with its arguments leads on to the tree of the grammar |
| `FinshParser.Parser.ProcPostfix` | rt-thread-home/os-app/components/finsh/finsh_parser.c:758-807 | without an error the entries hold the tree of the grammar and the rest of the tokens is left; an error is set only if there is no reading or no room |
| `FinshParser.Parser.ProcUnary` | rt-thread-home/os-app/components/finsh/finsh_parser.c:710-750 | the same for prefix operators; a minus sign subtracts from zero |
| `FinshParser.Parser.ProcCast` | rt-thread-home/os-app/components/finsh/finsh_parser.c:675-697 | the same for cast expressions without a type: a parenthesis is an error |
| `FinshParser.Parser.ProcLevel` | rt-thread-home/os-app/components/finsh/finsh_parser.c:467-668 | the same for the six levels of binary operators |
| `FinshParser.Parser.LevelStep` | rt-thread-home/os-app/components/finsh/finsh_parser.c:635-663 | one operator and its right operand join the tree read so far |
| `FinshParser.Parser.ProcAssign` | rt-thread-home/os-app/components/finsh/finsh_parser.c:442-461 | the same for assignments |
| `FinshParser.Parser.ProcParams` | rt-thread-home/os-app/components/finsh/finsh_parser.c:864-887 | the same for parameter lists, linked as siblings |
| `FinshParser.Parser.ProcStatement` | rt-thread-home/os-app/components/finsh/finsh_parser.c:412-428 | an expression with its semicolon, or nothing for a semicolon alone |
| `FinshParser.Parser.ParserRun` | rt-thread-home/os-app/components/finsh/finsh_parser.c:916-998 | for every line without type keywords, read to its end whatever errors it has: without an error the root holds exactly the chain of trees that the grammar gives the line, and there is no error if the line has a reading and the table has room |
| `FinshShell.RunTokens` | rt-thread-home/os-app/components/finsh/shell.c:182-223 | parser, compiler and machine together: for every line that the grammar reads as statements that the compiler translates, running its tokens gives the value of the last statement and the memory of the evaluator; a line with an assignment that the compiler refuses gives its error and is not run |
| `FinshShell.RunPrinted` | rt-thread-home/os-app/components/finsh/shell.c:182-223 | so does every written list of such statements, no operand in parentheses |
| `FinshLaws.RunNumbers` | rt-thread-home/os-app/components/finsh/shell.c:182-223 | from tokens to the number: `a p b q c ;` is parsed, compiled and run to the number that C means, for all numbers and operators for which C defines it |
| `FinshHeapSpec.CanonicalUnique` | rt-thread-home/os-app/components/finsh/finsh_heap.c:248-298 | the blocks in use determine the whole heap: two tilings with the same blocks in use and no two free neighbours are the same |
| `FinshHeapSpec.PlacedGood` | rt-thread-home/os-app/components/finsh/finsh_heap.c:232-246 | taking a block splits a free one; the rest stays free behind it, so the topmost block is still free and nothing needs to merge |
| `FinshHeapSpec.FreeUndoesAllocate` | rt-thread-home/os-app/components/finsh/finsh_heap.c:115-128 | freeing a block right after its allocation gives back the heap before it |
| `FinshHeap.Heap.BlockInsert` | rt-thread-home/os-app/components/finsh/finsh_heap.c:166-200 | insertion keeps the list in address order, provided that a header that goes to the end has no stale link |
| `FinshHeap.Heap.BlockRemove` | rt-thread-home/os-app/components/finsh/finsh_heap.c:205-227 | removal takes exactly that header from the list |
| `FinshHeap.Heap.FirstFit` | rt-thread-home/os-app/components/finsh/finsh_heap.c:80-91 | the lowest free block that is long enough, or none |
| `FinshHeap.Heap.BlockSplit` | rt-thread-home/os-app/components/finsh/finsh_heap.c:232-246 | the rest of a free block becomes a free block behind it, in the list as in memory |
| `FinshHeap.Heap.BlockMerge` | rt-thread-home/os-app/components/finsh/finsh_heap.c:248-298 | a block just put on the free list joins both free neighbours; afterwards no two free blocks touch |
| `FinshHeap.Heap.Allocate` | rt-thread-home/os-app/components/finsh/finsh_heap.c:73-110 | first fit, if needed after collecting garbage; fails exactly if then no free block has room for the bytes and a header; blocks in use keep place and length |
| `FinshHeap.Heap.Free` | rt-thread-home/os-app/components/finsh/finsh_heap.c:115-128 | the block is free, the others are as before, and the invariant holds: both lists in address order, together tiling the heap, no free neighbours, the topmost block free |
| `FinshHeap.Heap.Gc` | rt-thread-home/os-app/components/finsh/finsh_heap.c:133-161 | exactly the blocks in use to which some variable points stay in use, as they were |
| `FinshHeap.CollectedUnique` | rt-thread-home/os-app/components/finsh/finsh_heap.c:133-161 | what garbage collection leaves does not depend on the order of its releases |
| `HeapLaws.CollectionKeeps` | rt-thread-home/os-app/components/finsh/finsh_heap.c:133-161 | after a collection a block is in use if and only if it was, and some variable holds the address of its data |
| `FinshHeap.Heap.constructor` | rt-thread-home/os-app/components/finsh/finsh_heap.c:55-68 | the new heap is one free block and satisfies the invariant |
| `RtList.RingInsertAfter` | rt-thread-home/os-app/include/rtservice.h:62-69 | insertion after a node of a circular list puts the node there and keeps the list doubly linked |
| `RtList.RingInsertBefore` | rt-thread-home/os-app/include/rtservice.h:77-84 | insertion before a node likewise |
| `RtList.RingRemove` | rt-thread-home/os-app/include/rtservice.h:90-96 | removal takes the node out of its list and makes it a list of its own |
| `RtList.UnlinkUndoesInsert` | rt-thread-home/os-app/include/rtservice.h:62-96 | removal undoes insertion but for the links of the node itself |
| `RtList.RemoveLone` | rt-thread-home/os-app/include/rtservice.h:90-96 | removing a node that is in no list changes nothing |
| `MemHeap.Heap.constructor` | rt-thread-home/os-app/src/memheap.c:60-131 | one free block and a used tail; the invariant holds |
| `MemHeap.Heap.Search` | rt-thread-home/os-app/src/memheap.c:176-187 | the search finds the first block of the free list that is large enough |
| `MemHeap.Heap.Alloc` | rt-thread-home/os-app/src/memheap.c:146-288 | fails exactly if the aligned size is not below available_size or no free block is large enough; otherwise the first fit is cut or used whole; no payload byte of a block in use changes; max_used_size is the larger of what it was and what is used now; the invariant holds |
| `MemHeap.AllocIsSafe` | rt-thread-home/os-app/src/memheap.c:189-288 | what is allocated is in use, long enough and apart from every block in use before, and all of those keep place and length |
| `MemHeap.AllocFails` | rt-thread-home/os-app/src/memheap.c:146-187 | an allocation fails if no unused block is large enough, and in one other case: the aligned size is exactly all that is available |
| `MemHeap.Heap.Free` | rt-thread-home/os-app/src/memheap.c:499-593 | the block merges with its unused neighbours; the free list holds exactly the unused blocks, no two unused neighbours remain, available_size is the sum of the unused payloads |
| `MemHeap.FreeLeaves` | rt-thread-home/os-app/src/memheap.c:499-593 | after a free the header and the bytes of the block lie inside one unused block |
| `MemHeap.Heap.Enlarge` | rt-thread-home/os-app/src/memheap.c:319-421 | a block that is to get larger grows into the unused block behind it if that is large enough, else it moves |
| `MemHeap.Heap.Grow` | rt-thread-home/os-app/src/memheap.c:338-406 | growing in place moves the boundary and keeps the bytes |
| `MemHeap.Heap.Shrink` | rt-thread-home/os-app/src/memheap.c:423-495 | shrinking gives back the rest, merged with the unused block behind it |
| `MemHeap.Heap.Realloc` | rt-thread-home/os-app/src/memheap.c:291-496 | every path of realloc keeps the first bytes, as many as the smaller of both sizes, keeps all other blocks in use and their bytes, and keeps the invariant; the block stays if it is large enough, or the block behind it is unused and both together have more than asked for and a minimal block; it fails only if a move is needed and alloc fails |
| `Blocks.PayloadsDisjoint` | rt-thread-home/os-app/src/memheap.c:146-288 | payloads of different blocks never overlap |
| `Blocks.CopyBytes` | rt-thread-home/os-app/src/memheap.c:413-418 | the copy between two payloads |
| `Blocks.ExtentsSum` | rt-thread-home/os-app/src/mem.c:319-339 | bytes of the blocks in use and of the others add up to the region |
| `HeapLaws.LittleWaste` | rt-thread-home/os-app/src/mem.c:287-333 | an allocated block has less than a header and a minimal block more than asked for; if it was cut it has exactly that, and the rest is an unused block behind it; likewise for memheap.c |
| `SmallMem.Heap.PlugHoles` | rt-thread-home/os-app/src/mem.c:136-174 | an unused block joins its unused neighbours; none of the remaining headers is lost; the hint follows a merge |
| `SmallMem.Heap.constructor` | rt-thread-home/os-app/src/mem.c:184-231 | one unused block and the end marker; the invariant holds if and only if there is room for one minimal block |
| `SmallMem.SystemHeapInit` | rt-thread-home/os-app/src/mem.c:184-231 | there is a heap if and only if the aligned addresses leave room for two headers |
| `SmallMem.SearchNeverEnds` | rt-thread-home/os-app/src/mem.c:279-281 | in a new heap without room for a minimal block the limit of the search wraps below zero, and no request that reaches the search ever ends |
| `SmallMem.Heap.Malloc` | rt-thread-home/os-app/src/mem.c:246-374 | first fit from the hint; fails exactly if no unused block from the hint on, at an offset below the limit, is large enough; used_mem and max_mem are exact; bytes in use are untouched; a lowest hint stays lowest |
| `SmallMem.Heap.AdvanceHint` | rt-thread-home/os-app/src/mem.c:344-351 | the hint moves to the next unused block or to the end |
| `SmallMem.MallocMissesOnlyTheEnd` | rt-thread-home/os-app/src/mem.c:279-351 | with the lowest hint only an exact fit at the very end of the heap is missed |
| `SmallMem.HintAtEndFindsNothing` | rt-thread-home/os-app/src/mem.c:279-351 | with the hint at the end malloc fails whatever is unused |
| `SmallMem.Heap.Free` | rt-thread-home/os-app/src/mem.c:504-558 | the block is unused and merged; the invariant holds; a lowest hint stays lowest; a null pointer changes nothing |
| `SmallMem.Heap.Shrink` | rt-thread-home/os-app/src/mem.c:430-454 | the in-place shrink of realloc, and exactly when the hint stays the lowest: if and only if it was not above the block behind and not at the end |
| `SmallMem.Heap.Resize` | rt-thread-home/os-app/src/mem.c:418-465 | realloc of a block in use leaves it where it is if and only if it has that size, or more than a header and a minimal block too much; else it moves it; and keeps the first bytes |
| `SmallMem.Heap.Realloc` | rt-thread-home/os-app/src/mem.c:385-466 | every path of realloc: null pointer, zero size, too large, in place, moved; other blocks and their bytes stay; max_mem is the larger of what it was and the most in use during the call; a lowest hint stays lowest unless an in-place shrink loses it |
| `SmallMem.UsedAndUnused` | rt-thread-home/os-app/src/mem.c:319-339 | used and unused extents add up to the heap |
| `TimerList.TickOrder` | rt-thread-home/os-app/src/timer.c:346-353 | comparing wrapped differences compares deadlines, for deadlines less than half the range apart |
| `TimerList.TickExpired` | rt-thread-home/os-app/src/timer.c:496-500 | a deadline has come exactly if the wrapped time since then is below half the range |
| `TimerList.TallInsert` | rt-thread-home/os-app/src/timer.c:359-378 | stable insertion into a row commutes with leaving out the lower timers |
| `TimerList.RowsNested` | rt-thread-home/os-app/src/timer.c:290-399 | every row is a subsequence of the row below |
| `TimerList.RowInsert` | rt-thread-home/os-app/src/timer.c:359-378 | linking a timer behind its place inserts it into the circular row |
| `TimerList.RowRemove` | rt-thread-home/os-app/src/timer.c:121-129 | unlinking a timer from a row it may or may not be in |
| `TimerList.Timers.Locate` | rt-thread-home/os-app/src/timer.c:329-357 | the descending search finds, in every row, the place behind all timers that are not later |
| `TimerList.Timers.Link` | rt-thread-home/os-app/src/timer.c:359-378 | the timer enters the lowest row and those above it that its height reaches |
| `TimerList.Timers.StartTimer` | rt-thread-home/os-app/src/timer.c:290-399 | the bottom row is plain stable insertion into the sorted list, for any number of levels and any heights; every row stays sorted; an active timer is refused |
| `TimerList.Timers.Remove` | rt-thread-home/os-app/src/timer.c:121-129 | the timer is gone from every row and nothing else is |
| `TimerList.Timers.StopTimer` | rt-thread-home/os-app/src/timer.c:409-432 | stopping refines the removal from the sorted list; a stopped timer is refused |
| `TimerList.Timers.Expire` | rt-thread-home/os-app/src/timer.c:500-527 | one expired timer: removed, its timeout function run, started again if periodic and still active |
| `TimerList.Timers.CheckTimers` | rt-thread-home/os-app/src/timer.c:478-536 | the loop terminates and refines the abstract check on the sorted list, across wraparound |
| `TimerList.Timers.TickIncrease` | rt-thread-home/os-app/src/clock.c:83-105 | one tick: the counter wraps modulo 2^32, then the timers are checked |
| `TimerList.Timers.NextTimeout` | rt-thread-home/os-app/src/timer.c:108-119 | the deadline of the first pending timer as a tick, or the maximal tick if there is none |
| `TimerList.Timers.constructor` | rt-thread-home/os-app/src/timer.c:654-662 | empty rows, every timer in a list of its own |
| `TimerSpec.StartOk` | rt-thread-home/os-app/src/timer.c:290-399 | starting a timer keeps the list sorted, duplicate free and near |
| `TimerSpec.CheckFires` | rt-thread-home/os-app/src/timer.c:478-536 | a check fires exactly the due timers that no timeout function stopped first, in list order, and leaves nothing due |
| `TimerSpec.FiringIs` | rt-thread-home/os-app/src/timer.c:478-536 | the firing order is that of the deadlines, first come first served among equals; a due timer is left out only because one that fired stopped it |
| `TimerSpec.TickFires` | rt-thread-home/os-app/src/timer.c:478-536 | at a check a timer that nobody stops fires if and only if its deadline has come |
| `TimerSpec.FiresOnTime` | rt-thread-home/os-app/src/timer.c:478-536 | over every run of ticks, starts and stops, a pending timer that nobody stops fires at the tick of its deadline, or at the next tick if the deadline is now, and not before |
| `TimerSpec.FiresPeriodically` | rt-thread-home/os-app/src/timer.c:478-536 | over every run, a periodic timer that nobody stops fires exactly at that tick and once each period after it |
| `TimerStops.CheckStops` | rt-thread-home/os-app/src/timer.c:500-527 | a timer that a timeout function stops, be it its own, does not fire any more in this check and is not active afterwards, periodic or not, unless a later one starts it |
| `TimerStops.StaysStopped` | rt-thread-home/os-app/src/timer.c:409-536 | over every run a timer that is not active does not fire until it is started |
| `TimerStops.StoppedStays` | rt-thread-home/os-app/src/timer.c:409-432 | in particular from a stop on |
| `TimerStops.StartWaits` | rt-thread-home/os-app/src/timer.c:290-399 | a timer that is started waits for the tick that is its delay away; starting an active one changes nothing |
| `TimerStops.FiresOnce` | rt-thread-home/os-app/src/timer.c:478-536 | over every run a timer that is not periodic, or stops itself, fires exactly once after it was started, at the tick that was set |
| `IpcList.Suspend` | rt-thread-home/os-app/src/ipc.c:92-135 | a waiting thread goes to the end, or behind all that are at least as urgent |
| `IpcOrder.NextUnique` | rt-thread-home/os-app/src/ipc.c:92-158 | of the waiting threads one is the next: with FIFO order the earliest, with priorities the most urgent, the earliest among equals |
| `IpcOrder.HeadIsNext` | rt-thread-home/os-app/src/ipc.c:92-158 | in a list that is kept by suspending threads it stands first |
| `MailboxSpec.StepInv` | rt-thread-home/os-app/src/ipc.c:1404-1674 | every critical section of send and receive, wake-up, timeout and reset keeps: no lost wakeup, in_offset = out_offset + entry modulo size, received mails followed by the ring are the mails sent |
| `MailboxSpec.RunInv` | rt-thread-home/os-app/src/ipc.c:1404-1674 | this holds over every interleaving from the initial state |
| `MailboxSpec.SomebodyWillRun` | rt-thread-home/os-app/src/ipc.c:1551-1674 | a mail beside a blocked receiver implies a woken receiver that will take it; a free place beside a blocked sender likewise |
| `MailboxCalls.RunWakesNext` | rt-thread-home/os-app/src/ipc.c:1404-1674 | over every run: a step that puts in a mail wakes exactly the receiver that is the next by order of arrival and priority, one that takes a mail the sender that is; and without such a step only a timeout or a reset ends a wait |
| `MailboxCalls.WakesNextFromTheStart` | rt-thread-home/os-app/src/ipc.c:1253-1674 | so it is from the initialisation on |
| `MailboxCalls.StepReturns` | rt-thread-home/os-app/src/ipc.c:1404-1674 | a send returns EOK if and only if there was room, and then its mail is the last one; EFULL if and only if there was none and it may not wait; a receive delivers the first mail if and only if there is one, and returns ETIMEOUT if and only if there is none and it may not wait; a thread that was woken with an error returns it |
| `MailboxCalls.RunExplains` | rt-thread-home/os-app/src/ipc.c:1404-1715 | over every run a woken thread holds the code of what ended its wait |
| `MailboxCalls.WokenReturns` | rt-thread-home/os-app/src/ipc.c:1404-1715 | so it returns ERROR if and only if a reset did, and ETIMEOUT if and only if its timer did or, for a receiver that may not wait again, there is no mail |
| `MailboxCalls.ExpireEnds` | rt-thread-home/os-app/src/thread.c:633-654 | when its timer expires a thread waits no more, and nobody else is concerned |
| `MailboxCalls.ResetEnds` | rt-thread-home/os-app/src/ipc.c:1686-1715 | a reset throws all mails away and ends all waits with an error |
| `Mailbox.Mailbox.Send` | rt-thread-home/os-app/src/ipc.c:1404-1522 | one pass of the sender on the ring buffer is the send step of the protocol |
| `Mailbox.Mailbox.Recv` | rt-thread-home/os-app/src/ipc.c:1551-1674 | one pass of the receiver is the receive step |
| `Mailbox.Mailbox.Resumed` | rt-thread-home/os-app/src/ipc.c:1404-1674 | a woken thread goes back to its loop or out with its error |
| `Mailbox.Mailbox.ThreadTimeout` | rt-thread-home/os-app/src/thread.c:633-654 | a timeout takes the thread from the waiting list |
| `Mailbox.Mailbox.Control` | rt-thread-home/os-app/src/ipc.c:1686-1715 | reset wakes every waiter with an error and empties the ring |
| `Mailbox.Mailbox.constructor` | rt-thread-home/os-app/src/ipc.c:1253-1281 | the new mailbox is the initial state of the protocol |
| `Mailbox.RingPut` | rt-thread-home/os-app/src/ipc.c:1496-1503 | writing at in_offset appends to the contents of the ring |
| `MqSpec.StepInv` | rt-thread-home/os-app/src/ipc.c:1924-2278 | every block is in exactly one of free list, queue and one in-flight copy; entry is the length of the queue; no lost wakeup; blocks being copied are not written by others |
| `MqSpec.RunInv` | rt-thread-home/os-app/src/ipc.c:1924-2278 | this holds over every interleaving of critical sections and copies |
| `MqSpec.StepMessages` | rt-thread-home/os-app/src/ipc.c:1924-2278 | the queue of messages is a deque: a send appends what it wrote, an urgent send prepends it, a receive takes the first, reset drops all, and no other step changes it |
| `MqSpec.FirstInFirstOut` | rt-thread-home/os-app/src/ipc.c:1924-2278 | over every interleaving without urgent sends and resets, the messages taken, followed by those still queued, are those queued before, followed by those sent |
| `MqSpec.FillWrites` | rt-thread-home/os-app/src/ipc.c:1958-1961 | the block of a sender holds the data to send after its copy, and behind it what it held before; no other block changes |
| `MqSpec.FilledStays` | rt-thread-home/os-app/src/ipc.c:1958-1979 | no step of another thread changes it until it is linked |
| `MqSpec.DrainDelivers` | rt-thread-home/os-app/src/ipc.c:2192-2208 | a receiver gets the first bytes of the message that was first when it took it, whatever happened since |
| `MqSpec.SomebodyWillRun` | rt-thread-home/os-app/src/ipc.c:2095-2221 | a message beside a blocked receiver implies a woken receiver that will take it |
| `MqDelivery.GivenIsSent` | rt-thread-home/os-app/src/ipc.c:1924-1997 | over every run, the messages sent start with the bytes that the senders gave, in the order of the links |
| `MqDelivery.GotIsTaken` | rt-thread-home/os-app/src/ipc.c:2095-2221 | over every run, what the copies of the receivers deliver are the first bytes of the messages they took |
| `MqDelivery.SentIsReceived` | rt-thread-home/os-app/src/ipc.c:1924-2221 | from sender to receiver, over every interleaving without urgent sends and resets: the i-th message taken is the i-th one that was there or was sent, and its receiver gets the bytes that its sender gave |
| `MqDelivery.FromTheStart` | rt-thread-home/os-app/src/ipc.c:1738-2221 | so from the initialisation on the i-th message received is the i-th one sent |
| `MqCalls.StepSendReturns` | rt-thread-home/os-app/src/ipc.c:1924-2085 | a send returns EOK if and only if a message that starts with its buffer was put last, or first if urgent; EFULL if and only if all blocks are in the queue or being copied; ERROR if and only if the buffer is longer than a message; and otherwise changes no messages |
| `MqCalls.RunSendsReturn` | rt-thread-home/os-app/src/ipc.c:1924-2085 | over every run of sections and copies |
| `MqCalls.SendCall` | rt-thread-home/os-app/src/ipc.c:1924-2085 | a whole call that was not refused returns EOK with its message in the queue, whatever happens before its copy and between the copy and its last section |
| `MqCalls.StepReceiveReturns` | rt-thread-home/os-app/src/ipc.c:2095-2221 | a receive takes the first message if and only if there is one; else it waits if it may, and returns ETIMEOUT if not; a woken one returns the error that it was woken with; never EOK without a message |
| `MqCalls.RunExplains` | rt-thread-home/os-app/src/ipc.c:2095-2278 | over every run a woken thread holds the code of what ended its wait |
| `MqCalls.WokenReturns` | rt-thread-home/os-app/src/ipc.c:2095-2278 | so a receiver returns ERROR if and only if a reset did, and ETIMEOUT if and only if its timer did, or there is again no message and it may not wait; and never EOK |
| `MqCalls.RunWakesNext` | rt-thread-home/os-app/src/ipc.c:1924-2278 | over every run: a message that is linked wakes exactly the receiver that is the next by order of arrival and priority; else only a timeout or a reset ends a wait |
| `MessageQueue.Queue.constructor` | rt-thread-home/os-app/src/ipc.c:1738-1785 | message size aligned, as many blocks as the pool has room for, all on the free list, the last one first |
| `MessageQueue.Queue.Allocate` | rt-thread-home/os-app/src/ipc.c:1939-1956 | the first critical section of send takes a block or reports a full queue |
| `MessageQueue.Queue.Copy` | rt-thread-home/os-app/src/ipc.c:1958-1961 | the copy into the block, outside the critical sections |
| `MessageQueue.Queue.Deposit` | rt-thread-home/os-app/src/ipc.c:1963-1997 | the second critical section links the block last, or first if urgent, keeps msg_queue_tail right, and wakes one receiver |
| `MessageQueue.Queue.Receive` | rt-thread-home/os-app/src/ipc.c:2115-2205 | take the first message or block; the tail is cleared exactly when it was the only one |
| `MessageQueue.Queue.CopyOut` | rt-thread-home/os-app/src/ipc.c:2207-2208 | the copy out of the block |
| `MessageQueue.Queue.GiveBack` | rt-thread-home/os-app/src/ipc.c:2210-2220 | the block goes back to the free list |
| `MessageQueue.Queue.Control` | rt-thread-home/os-app/src/ipc.c:2234-2278 | reset wakes all receivers with an error and frees all messages |
| `EventSpec.ReceivedIs` | rt-thread-home/os-app/src/ipc.c:1121-1147 | what is received is a non-empty part of what was asked, all of it for AND, and set at that moment |
| `EventSpec.LeftIs` | rt-thread-home/os-app/src/ipc.c:1144-1146 | CLEAR consumes the bits asked for and nothing else |
| `EventSpec.ScanServes` | rt-thread-home/os-app/src/ipc.c:998-1077 | a send resumes exactly the waiters satisfied by the bits that are left when the scan reaches them, in queue order, each with its part of those bits |
| `EventSpec.SendInv` | rt-thread-home/os-app/src/ipc.c:998-1077 | after a send no blocked thread is satisfied by the bits that are left |
| `EventSpec.RunInv` | rt-thread-home/os-app/src/ipc.c:998-1199 | in every reachable state no blocked thread is satisfied, or has an error |
| `EventSpec.WokenGets` | rt-thread-home/os-app/src/ipc.c:998-1236 | a thread leaves the waiting list with what it will return: after a send a non-empty part of what it asked, all of it for AND, set at that moment; after a timeout or a reset the error |
| `EventSpec.ReturnsDeserved` | rt-thread-home/os-app/src/ipc.c:1093-1199 | and that is what it returns when it runs, whatever run of sends, other receives, timeouts and resets comes between |
| `EventLaws.RecvLaw` | rt-thread-home/os-app/src/ipc.c:1093-1199 | a receive that finds the bits returns them at once, all of them for AND, and with CLEAR exactly those are no longer set; else it waits if it may, and returns ETIMEOUT if not, and changes no bits |
| `EventLaws.SendLaw` | rt-thread-home/os-app/src/ipc.c:998-1077 | a send adds the bits sent, of which the waiting threads take some; with nobody waiting exactly these are added; a thread that waits on keeps its request |
| `EventLaws.ExpireLaw` | rt-thread-home/os-app/src/thread.c:633-654 | when its timer expires a thread waits no more and will return ETIMEOUT; the others wait on in their order |
| `EventLaws.ResetLaw` | rt-thread-home/os-app/src/ipc.c:1211-1236 | after a reset no bit is set and nobody waits; all that did will return ERROR |
| `EventFlags.EventObject.SendEvent` | rt-thread-home/os-app/src/ipc.c:998-1077 | the loop over the waiting list is the scan of the specification |
| `EventFlags.EventObject.RecvEvent` | rt-thread-home/os-app/src/ipc.c:1093-1199 | receive at once, block, or refuse |
| `EventFlags.EventObject.Resumed` | rt-thread-home/os-app/src/ipc.c:1178-1199 | the rest of receive, when the thread runs again, is the answer of the specification |
| `EventFlags.EventObject.Control` | rt-thread-home/os-app/src/ipc.c:1211-1236 | reset clears the bits and wakes every waiter, and no other thread, with an error |
| `EventFlags.EventObject.ThreadTimeout` | rt-thread-home/os-app/src/thread.c:633-654 | a timeout takes the thread from the waiting list |
| `MutexSpec.StepInv` | rt-thread-home/os-app/src/ipc.c:642-859 | every take, release and timeout keeps: the owner is at least as urgent as every waiter, waiters sorted and, among equals, in the order in which they came, original_priority is the own priority of the owner, all others run at their own, value, owner and hold agree |
| `MutexSpec.Inherited` | rt-thread-home/os-app/src/ipc.c:642-859 | this holds in every reachable state of priority-ordered mutexes, if a thread takes one only while it has no other |
| `MutexCalls.NewOwnerIsNext` | rt-thread-home/os-app/src/ipc.c:806-849 | in every reachable state the last release gives the mutex to the most urgent waiting thread, the one that came first among equals |
| `MutexCalls.TakeReturns` | rt-thread-home/os-app/src/ipc.c:642-761 | a take returns EOK if and only if the caller owns the mutex afterwards, ETIMEOUT if and only if another thread has it and the caller may not wait; else it waits |
| `MutexCalls.TakeBoosts` | rt-thread-home/os-app/src/ipc.c:692-706 | a waiting thread makes the owner as urgent as itself, not more so, and nobody else |
| `MutexCalls.ReleaseReturns` | rt-thread-home/os-app/src/ipc.c:772-859 | only the owner may release; only the last release gives the mutex away, and only the priority of the former owner changes, to what it had |
| `MutexCalls.ExpireLeaves` | rt-thread-home/os-app/src/thread.c:633-654 | when its timer expires a thread waits no more; owner, priorities and the order of the others stay |
| `MutexSpec.HandOff` | rt-thread-home/os-app/src/ipc.c:806-849 | with FIFO order the new owner is as urgent as all remaining waiters if and only if the head was the most urgent |
| `MutexSpec.FifoHandOffFails` | rt-thread-home/os-app/src/ipc.c:806-849 | a FIFO hand-off after which a waiter is more urgent than the owner |
| `MutexSpec.TakeFreeExact` | rt-thread-home/os-app/src/ipc.c:677-686 | taking a free mutex keeps its invariant if and only if the thread runs at its own priority |
| `MutexSpec.Saves` | rt-thread-home/os-app/src/ipc.c:677-849 | a thread that becomes the owner of a mutex, by taking it or by a hand-off, saves the priority it has and keeps it |
| `MutexSpec.ReleaseRestores` | rt-thread-home/os-app/src/ipc.c:677-849 | over every run from the step by which a thread becomes the owner, also with other mutexes: the last release leaves it at the priority it had at that step, so at its own if and only if it was at that then |
| `MutexSpec.WaitsUnchanged` | rt-thread-home/os-app/src/ipc.c:692-761 | a thread that owns no other mutex has at that step the priority it had when it called take |
| `MutexSpec.HandOffKeepsBoost` | rt-thread-home/os-app/src/ipc.c:806-849 | a run in which it has not: a thread that waits for a second mutex at its own priority is boosted while it waits, and keeps the boost after releasing both |
| `MutexSpec.SecondMutexKeepsBoost` | rt-thread-home/os-app/src/ipc.c:682-718 | a run in which it was not: a thread that takes a second mutex while boosted keeps the boost after releasing both |
| `MutexSpec.InnerRelease` | rt-thread-home/os-app/src/ipc.c:806-849 | the last release of a mutex leaves its owner as urgent as the waiters of its other mutexes if and only if original_priority is that urgent |
| `MutexSpec.InnerReleaseDropsBoost` | rt-thread-home/os-app/src/ipc.c:806-849 | a run in which it is not: the inner of two mutexes is released while a more urgent thread waits for the outer one |
| `MutexSpec.NestingDepth` | rt-thread-home/os-app/src/ipc.c:667-671 | n nested takes need n releases if and only if n is at most 256 |
| `MutexSpec.EarlyRelease` | rt-thread-home/os-app/src/ipc.c:667-671 | with more than 256 nested takes some earlier release frees the mutex |
| `MutexObject.RtMutex.TakeMutex` | rt-thread-home/os-app/src/ipc.c:642-761 | taking, with boost of the owner, refines the specification: the priorities, the mutex and the outcome are exactly those |
| `MutexObject.RtMutex.ReleaseMutex` | rt-thread-home/os-app/src/ipc.c:772-859 | releasing likewise: only by the owner, with restored priority and hand-off to the first waiter |
| `PageSpec.CanonicalUnique` | rt-thread-home/os-app/src/slab.c:246-344 | the free list is determined by the set of free pages: the sorted list of its maximal runs |
| `PageSpec.AllocIs` | rt-thread-home/os-app/src/slab.c:246-280 | an allocation of n pages fails exactly if no n free pages follow one another, else it returns the lowest place; the list stays canonical |
| `PageSpec.FreeIs` | rt-thread-home/os-app/src/slab.c:282-332 | freeing adds exactly those pages and keeps the list canonical |
| `PageSpec.FreeUndoesAlloc` | rt-thread-home/os-app/src/slab.c:246-332 | freeing what was just allocated restores the identical list |
| `PageSpec.FreesCommute` | rt-thread-home/os-app/src/slab.c:282-332 | the order of two releases does not matter |
| `PageList.PageAllocator.AllocPages` | rt-thread-home/os-app/src/slab.c:246-280 | the search through link pointers and the cut refine the specification |
| `PageList.PageAllocator.FreePages` | rt-thread-home/os-app/src/slab.c:282-332 | the loop with its four branches refines the specification |
| `PageList.PageAllocator.constructor` | rt-thread-home/os-app/src/slab.c:337-344 | one run of all pages |
| `ZoneSpec.ZoneIndexIs` | rt-thread-home/os-app/src/slab.c:411-469 | zoneindex gives the smallest chunk size that is large enough, its index below NZONES, and wastes less than an eighth plus eight bytes |
| `ZoneSpec.ChunkOfGrows` | rt-thread-home/os-app/src/slab.c:143-153 | chunk sizes strictly grow with the index and are multiples of eight |
| `ZoneSpec.TakeOk` | rt-thread-home/os-app/src/slab.c:556-583 | a zone with a free chunk gives one that was not in use, and z_nfree stays the untouched chunks plus the free list |
| `ZoneSpec.GiveOk` | rt-thread-home/os-app/src/slab.c:861-873 | a chunk in use goes back, and z_nfree never exceeds z_nmax |
| `ZoneSpec.FreeFits` | rt-thread-home/os-app/src/slab.c:885-886 | z_nfree equals z_nmax only if no chunk of the zone is in use |
| `ZoneSpec.LiveApart` | rt-thread-home/os-app/src/slab.c:571-583 | chunks in use do not overlap |
| `ZoneSpec.NewZoneOk` | rt-thread-home/os-app/src/slab.c:637-660 | a new zone has room for at least three chunks, all inside its pages, and only the first is in use |
| `HeapLaws.NewZoneFull` | rt-thread-home/os-app/src/slab.c:637-660 | a new zone has as many chunks as there is room for |
| `HeapLaws.FreshFirst` | rt-thread-home/os-app/src/slab.c:556-583 | a chunk that was never handed out goes first; when there is none, the one that was freed last |
| `ZoneSpec.AlignedAsZone` | rt-thread-home/os-app/src/slab.c:643-650 | a chunk whose size is a power of two is aligned to it if and only if its zone is |
| `ZoneSpec.SmallAligned` | rt-thread-home/os-app/src/slab.c:643-650 | so all power-of-two chunks up to a page are aligned |
| `ZoneSpec.LargeNotAligned` | rt-thread-home/os-app/src/slab.c:161-164 | but not those of 8192 bytes, in a zone that starts at an odd page |
| `Slab.BlocksApart` | rt-thread-home/os-app/src/slab.c:488-684 | no two blocks in use overlap, be they chunks or large |
| `Slab.UsageLeadsHome` | rt-thread-home/os-app/src/slab.c:826-859 | from any address in use, memusage leads to the header of its zone or to the length of the large block |
| `Slab.Heap.constructor` | rt-thread-home/os-app/src/slab.c:354-405 | the new heap satisfies the invariant and has no block in use |
| `Slab.Heap.TakeChunk` | rt-thread-home/os-app/src/slab.c:554-592 | the first zone of the list serves the request with an unused chunk if it has one that was never used, else with the first of its free list; no other zone changes |
| `Slab.Heap.OpenZone` | rt-thread-home/os-app/src/slab.c:602-671 | the last retired zone, else the lowest fitting pages, become a zone whose first chunk is the block; fails exactly if there is neither |
| `Slab.Heap.MallocLarge` | rt-thread-home/os-app/src/slab.c:508-536 | a large block owns the lowest pages that fit; fails exactly if none do |
| `Slab.Heap.Malloc` | rt-thread-home/os-app/src/slab.c:488-684 | the new block overlaps no other, is large enough, by less than a page for a large one, and is the only change to the blocks in use; it fails exactly for zero bytes, or if there are not enough pages in a row and, for a small one, no zone of its size has a free chunk and none is retired; else its address is that of the first zone of the list, of the zone retired last, or of the lowest pages that fit; used_mem grows by the size of the block and max_mem follows |
| `Slab.Heap.Retire` | rt-thread-home/os-app/src/slab.c:885-932 | an entirely free zone becomes the last retired one, or, if there are two already, its pages go back; no block in use is touched |
| `Slab.Heap.ReleaseZone` | rt-thread-home/os-app/src/slab.c:907-931 | the pages of a zone without blocks go back to the page list, and all that remains is consistent |
| `Slab.Heap.FreeChunk` | rt-thread-home/os-app/src/slab.c:853-935 | the chunk goes back to its zone, and a zone that had none free to the front of the list of its size; the zone is retired exactly if it is then entirely free and another zone of its size has free chunks |
| `Slab.Heap.Free` | rt-thread-home/os-app/src/slab.c:793-935 | exactly the block at that address is no longer in use, and the invariant holds |
| `Slab.Heap.Realloc` | rt-thread-home/os-app/src/slab.c:695-757 | the block stays if and only if it is a chunk of the size that the request rounds to, else it moves to a new one of at least the size, and this fails exactly if malloc fails; the other blocks in use stay; max_mem is the larger of what it was and the most in use during the call |
| `Bitmap.FfsIsLowest` | rt-thread-home/os-app/src/kservice.c:1235-1249 | __rt_ffs is the position of the lowest set bit, counted from one, and zero exactly for zero |
| `SchedulerSpec.StepInv` | rt-thread-home/os-app/src/thread.c:203-654 | startup, suspend, resume, yield, priority change, timeout, exit and delete keep every ready thread in exactly the queue of its current priority and all others in none |
| `SchedulerSpec.RunInv` | rt-thread-home/os-app/src/thread.c:203-654 | this holds over every run |
| `SchedulerSpec.YieldRotates` | rt-thread-home/os-app/src/thread.c:377-411 | a yield puts the thread behind the others of its priority, whose order stays |
| `SchedulerLaws.StepDoes` | rt-thread-home/os-app/src/thread.c:203-654 | the state in which each operation leaves its thread; no other thread changes its state, its priority or its place; a thread that becomes ready, yields, or changes its priority while ready is then the last of the queue of its priority |
| `Scheduler.MarkOk` | rt-thread-home/os-app/src/scheduler.c:267-304 | after an insertion the bits agree with the queues, in both bitmap variants |
| `Scheduler.UnmarkOk` | rt-thread-home/os-app/src/scheduler.c:313-353 | after a removal too: the group bit goes exactly with its last table bit |
| `Scheduler.HighestIs` | rt-thread-home/os-app/src/scheduler.c:191-258 | the lookup finds the most urgent priority with a ready thread |
| `Scheduler.RtScheduler.InsertThread` | rt-thread-home/os-app/src/scheduler.c:267-304 | the thread enters the end of its queue and the bits stay right |
| `Scheduler.RtScheduler.RemoveThread` | rt-thread-home/os-app/src/scheduler.c:313-353 | the thread leaves its queue and the bits stay right |
| `Scheduler.RtScheduler.StartThread` | rt-thread-home/os-app/src/thread.c:203-234 | startup sets priority and masks and makes the thread ready |
| `Scheduler.RtScheduler.SuspendThread` | rt-thread-home/os-app/src/thread.c:554-582 | a ready thread is suspended, any other refused |
| `Scheduler.RtScheduler.ResumeThread` | rt-thread-home/os-app/src/thread.c:592-624 | a suspended thread becomes ready, any other is refused |
| `Scheduler.RtScheduler.TimeoutThread` | rt-thread-home/os-app/src/thread.c:633-654 | a timeout makes a suspended thread ready |
| `Scheduler.RtScheduler.CloseThread` | rt-thread-home/os-app/src/thread.c:47-82 | an ended thread is in no queue |
| `Scheduler.RtScheduler.ControlPriority` | rt-thread-home/os-app/src/thread.c:485-526 | a ready thread changes queues, any other only its priority and masks |
| `Scheduler.RtScheduler.YieldCurrent` | rt-thread-home/os-app/src/thread.c:377-411 | the yield on the bitmaps is that of the specification |
| `Scheduler.RtScheduler.Schedule` | rt-thread-home/os-app/src/scheduler.c:191-258 | unless the scheduler is locked, the first thread of the most urgent non-empty queue runs, and no ready thread is more urgent |

## Left out

- FinshVm.Vm.Operate: byte and word operations fault in the model. Stack slots of the code are unions whose upper bytes
  go stale, so what such an operation leaves depends on what the slot held before; casts and narrow variables need them.
- FinshVm.Vm.Access: likewise, byte and word loads and stores.
- FinshParser.Parser.NewAtom: the copy of a string literal on the heap of the shell is not made; its address is part of the token.
- FinshParser.Parser.ParserRun: tokens of type keywords do not occur, so declarations and casts are not parsed; it is not said which
  error code a line without a reading gets.
- FinshParser.Parser.ProcCast: a parenthesis is never followed by a type here.
- FinshShell.RunTokens: takes tokens, not characters; the scanner of finsh_token.c that makes them is not modelled.
- FinshHeap.Heap.Allocate: does not state that the payload is cleared; the bytes in the blocks of the finsh heap are not modelled.
- Slab.Heap.Malloc: the lists of zones and of free chunks are sequences, not links.
- Slab.Heap.Realloc: the bytes that are copied are not modelled; addresses and sizes are.
- ZoneSpec.NewZoneOk: the test for a power of two is written with divisions instead of bit operations.
- MutexSpec.Inherited: threads change priority only by inheritance, and take a mutex only while they have no other;
  `ReleaseRestores` and `InnerRelease` are about runs without this rule, and the counterexamples show why it is needed.
- TimerSpec.FiresOnTime: delays are below half the tick range, periods at least one tick, and a timeout function starts only timers
  with a delay and never its own; without these rules the check of the code need not end.
- TimerList.Timers.TickIncrease: the time slice of the running thread and the yield at its end; the yield itself is
  `Scheduler.RtScheduler.YieldCurrent`.
- Scheduler.RtScheduler.ResumeThread: the timer of the thread and its link in a waiting list; both are part of the protocols of the IPC objects.
- Scheduler.RtScheduler.TimeoutThread: likewise, and the error code, which the IPC objects have.
- Scheduler.RtScheduler.CloseThread: the timer of the thread and the list of defunct threads.
- 32-bit overflow of request sizes.
- Heap locks: the allocators are sequential. slab.c releases its semaphore twice when pages run out.
- Hardware, context switches, hooks, assertions, debug output; soft timers, rt_timer_control, rt_tick_set.
- Detach and delete of IPC objects with waiters, semaphores, memory pools, object containers, devices, modules.
- Deleting a thread that was never started.
