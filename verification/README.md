# idakit: a verified model

idakit wraps a closed single-threaded kernel. This project models the algorithms and protocols the wrapper
itself is made of and proves what they promise. Run `dafny verify dfyconfig.toml`.

## The parts

- **Test runner.** `Scheduling` is the case scheduler; `RunnerSystem` the runner's threads as a transition
  system in which every script of actions is one interleaving of leases, answers, deaths, timeouts, failed
  spawns and lock acquisitions; `RunnerRuns` what every run keeps and how every run ends; `RunnerResults` the
  same runs with the workers' streams, and what each reported result says of its case. A lease or a drain is one
  action because it holds the scheduler's lock; draining and appending to the report are two.
- **Wire.** `Protocol` reads and writes requests and frames, `ProtocolBytes` says what their bytes are,
  `ProtocolRoundTrip` proves reading inverts writing, `WorkerStream` says which case every line and verdict
  belongs to on a live stream and on one cut anywhere, `RawOutput` what any output bytes do to the verdict after
  them, `WorkerProcess` holds the stream reader, the runner's `run_case` loop and the worker's request loop.
- **Type walk.** `TypeStore` is a store of named definitions in which a cycle can only pass through a name,
  `TypeTable` the interning table, `TypeWalk`, `TypeOrder` and `TypeWalker` the walk and the order of its
  entries and fills, `TypeUnfold`, `TypeSession` and `TypeSizes` what a finished walk, or any number of walks on
  one walker, guarantees.
- **Type recipe.** `Recipe` is the bytecode and its stack machine, `RecipeMachine` the interpreter over its
  bounds-checked reader, `RecipeExpr` the expressions, their serializer and the round trip, `RecipeExamples`
  what the bytes and the check are.
- **Ctree.** `Ctree` is the decompiled tree and the two arenas, `CtreeWalk` the builder, `CtreeWalker` the
  recursive walk, `CtreeDecode` reading back, `CtreeFinish` the parent-wiring loop, `CtreeGap` the extraction as
  a whole and the independent expression count. `Taint` is the taint pass over an extracted tree.
- **Kernel.** `Kernel` is the claim, initialization, thread affinity, the actor from set-up to join and the
  database that moves, as a transition system; `KernelJobs` its jobs, each a caller, a body of kernel steps and
  an ending, over whole runs; `KernelScripts` what a run's script alone tells; `KernelCalls` the code that makes
  the steps, the pump included; `Guard` is the fatal-exit trap and output capture over a descriptor table.
- **Smaller cores.** `Invalidation` is the coalesced cache eviction, `FlowChart` the flow-chart extraction.

Code that changes state is modelled as classes and loops proved against functions; the laws are lemmas about
those functions. Lemmas switch Dafny's automatic induction off, so each proof is the one written out. Handles
are natural numbers; `NONE` is the absent handle 0xFFFFFFFF, so a lowered tree is asked to have no more nodes of
each sort than that.

## Where the code does less than its documentation says

- A typedef that resolves, without a next name, to an unnamed struct, union or enum is recorded as an alias of
  itself. `TypeUnfold.UnfoldsFaithfully` says the table is faithful exactly when no such typedef is reached.
- A typedef is documented to adopt its target's size, but it reads the size when it is filled, and a target
  still being walked has none. `TypeSizes.SizeRecorded` gives the size every name records, over the
  definitions and the depth-first order of entry alone, and `SizeByOrder` says exactly when a typedef fails to
  adopt its target's: when the target records one and definitions lead from it to the typedef through names none
  of which comes before the target. `OrderMatters` and `MemberOrderMatters` are the everyday linked-list cases.
- Output that does not end its line hides the end frame after it (`ProtocolRoundTrip.UnterminatedOutputHidesFrame`).
  `RawOutput.RawOutputExact` says which output is harmless: exactly what is empty or ends in a newline and has no
  line that begins with the control byte other than as a start frame.
- An expression's serializer clips lengths and counts at 32 bits: longer names are cut silently, and a function
  with more parameters is always refused. `RecipeExpr.RecipeRoundTrip` says exactly when the type built is the one
  the expression denotes: every width is one the kernel has, and every count and every name fits.
- If a standard descriptor cannot be duplicated after the capture pipe was made, it is still redirected and never
  restored, and the drain of the pipe waits for a writer that is never closed (`Guard.RestoredExactly`).
- The exit code kept for "the last trapped fatal" is an earlier call's after an internal error
  (`Guard.InternalErrorKeepsOldCode`), and exactly then (`Guard.KeptCodeExactly`).
- An in-place database dropped while open frees the kernel's claim with the database still open in it
  (`Kernel.DroppedWhileOpen`). `Kernel.FreeKernelIsClosed` says exactly when: an unclaimed kernel has a database
  open if and only if one was given up open and none has been opened since.
- Switching automatic invalidation off before a cursor is dropped discards what earlier writes queued, and
  switching it on applies what was written while it was off. `Invalidation.AgreeExactly` says exactly when that
  makes no difference: the setting ends on and every successful write made while off is no wider than one made
  while on, or it ends off and nothing written while on evicts anything.

## Model

| member | source | states |
|---|---|---|
| `RunnerRuns.ExactlyOneResult` | crates/idakit-runner/src/runner.rs:136-196 | every script of spawns, leases, answers, deaths, timeouts, drains and appends has at most 5 steps a case and 3 a thread; when no thread can act, the multiset of reported names is the multiset of input names |
| `RunnerRuns.NoCaseLost` | crates/idakit-runner/src/runner.rs:136-196 | in every reachable state, names pending, in some thread's hands and reported add up to the input, counted with multiplicity |
| `RunnerRuns.GroupCountsExact` | crates/idakit-runner/src/runner.rs:341-397 | in every reachable state a group's worker count is the number of unfinished or failed threads last on it, and no count is kept at zero, so the decrement never underflows |
| `RunnerRuns.EachGroupOpenedOncePerThread` | crates/idakit-runner/src/runner.rs:167-196 | over a whole run the leases of one thread in one group are consecutive among that thread's leases, also across respawns |
| `RunnerRuns.LeftForGood` | crates/idakit-runner/src/runner.rs:341-359 | after any thread's claim moves off a group, no later lease by any thread is a case of that group |
| `RunnerRuns.LeasedInInputOrder` | crates/idakit-runner/src/runner.rs:341-387 | in every reachable state the cases leased of one group, and the ungrouped ones leased, are a prefix of the input's cases of that group, in order |
| `RunnerRuns.EveryCaseLeased` | crates/idakit-runner/src/runner.rs:167-196 | in a finished run without a failed spawn, every case was leased, each group in input order |
| `RunnerRuns.StuckOnlyAtTheEnd` | crates/idakit-runner/src/runner.rs:150-160 | a system is stuck exactly when all its threads have ended: no interleaving deadlocks |
| `RunnerRuns.StepVisits` | crates/idakit-runner/src/runner.rs:341-359 | each action keeps: one visit a thread and group, nothing pending in a group some thread has left, a live thread's claim is its latest case's group |
| `RunnerSystem.StepConserves` | crates/idakit-runner/src/runner.rs:413-417 | each action, the two steps of draining included, keeps the conservation of names |
| `RunnerSystem.ThreadsMean` | crates/idakit-runner/src/runner.rs:145-149 | as many threads as workers asked for, one at least and never more than cases |
| `RunnerSystem.StepCounts` | crates/idakit-runner/src/runner.rs:341-397 | each action keeps the group counts exact, a take that leaves one group and joins another included |
| `RunnerSystem.StepOrders` | crates/idakit-runner/src/runner.rs:341-417 | each action keeps, for every group, leased then drained then pending equal to the input order |
| `RunnerSystem.TakeCounts` | crates/idakit-runner/src/runner.rs:341-359 | a take lowers the count of the group left and raises that of the group joined, by one each, and changes no other |
| `RunnerSystem.OfGroupWithout` | crates/idakit-runner/src/runner.rs:346-354 | removing the earliest case of its group takes the head of that group's order and leaves every other group's order alone |
| `Scheduling.TakeMeans` | crates/idakit-runner/src/runner.rs:341-359 | a take returns nothing exactly when nothing is pending, stays in the current group while it has work without touching the counts, and otherwise returns the best case, counted without the worker itself if it leaves a group; the case returned is the earliest of its group |
| `Scheduling.Scheduler.Take` | crates/idakit-runner/src/runner.rs:341-359 | the method's result and new state are those of the specification TakeMeans is about |
| `Scheduling.Scheduler.BestIndex` | crates/idakit-runner/src/runner.rs:362-387 | nothing exactly when the queue is empty, else the one index whose real-valued score no other exceeds and no earlier one equals, found by integer cross-multiplication |
| `Scheduling.Scheduler.PendingPerGroup` | crates/idakit-runner/src/runner.rs:363-368 | the counting loop's map agrees with the number of pending cases of every group |
| `Scheduling.LeftCounts` | crates/idakit-runner/src/runner.rs:390-397 | leaving lowers the named group's count by one if it has one, keeps every count positive and touches no other |
| `RunnerSystem.StepMoves` | crates/idakit-runner/src/runner.rs:167-196 | an action only moves cases between the queue, the acting thread's hands and the report |
| `RunnerSystem.StepExhausts` | crates/idakit-runner/src/runner.rs:341-359 | a thread that stopped taking has seen the queue empty, and it stays empty |
| `RunnerRuns.StepInvariant` | crates/idakit-runner/src/runner.rs:136-196 | all the invariants together survive every action |
| `RunnerRuns.StepDecreases` | crates/idakit-runner/src/runner.rs:167-196 | every action lowers the bound on the actions left |
| `Scheduling.CrossMultiply` | crates/idakit-runner/src/runner.rs:370-384 | integer cross-multiplication orders two scores as their exact quotients |
| `Scheduling.ScoreMeans` | crates/idakit-runner/src/runner.rs:326-333 | a grouped case scores the number of its group's pending cases over the workers the group would then have, an ungrouped one scores one |
| `Scheduling.BestIsEarliest` | crates/idakit-runner/src/runner.rs:362-387 | a best case is the earliest pending one of its own group, or the earliest ungrouped one |
| `WorkerStream.StreamAttributed` | crates/idakit-runner/src/runner.rs:236-283 | for any sequence of cases served by one live worker under the wire's conditions, result k has case k's name and time and exactly the lines since end frame k - 1; it says passed if and only if case k passed, skipped if and only if it was skipped, failed if it failed or panicked, with the summary, the reason or the panic's text as its message; no byte of the stream is left over |
| `WorkerStream.CaseAttributed` | crates/idakit-runner/src/runner.rs:236-283 | one case's reply says how that case ended, in the same terms, whatever follows on the stream, which is left untouched |
| `WorkerStream.CutCase` | crates/idakit-runner/src/runner.rs:241-264 | a stream cut at any byte inside a case yields a crash, or, exactly when only the newline of an empty verdict is missing, the case's own full result: never another verdict |
| `WorkerStream.CutEnd` | crates/idakit-runner/src/protocol.rs:170-200 | an end frame cut at any byte is the end of input or malformed, except for the missing newline of an empty message |
| `RunnerResults.EveryResultGenuine` | crates/idakit-runner/src/runner.rs:136-283 | in every run of the pool, whichever workers die wherever in a case, every result reported says how its case ended, or says failed, after no time, without output and with the reason of some death, timeout or failed start of that run; so a case reported passed passed |
| `RunnerResults.AllOwn` | crates/idakit-runner/src/runner.rs:136-283 | without deaths, timeouts and failed starts a finished run reports each input name once for each time it was given, and every result says how its case ended |
| `RunnerResults.MoveGenuine` | crates/idakit-runner/src/runner.rs:167-196 | each action keeps that every result is its case's own or a failure with a reason some failed action gave, and that a worker kept has nothing unread |
| `RunnerResults.RunsAlike` | crates/idakit-runner/src/runner.rs:136-196 | a run of the pool with its streams is a run of the thread system |
| `RunnerResults.DeadUntilRespawned` | crates/idakit-runner/src/runner.rs:167-196 | a worker is dead from the first case it does not write whole until its thread starts another, and no other thread's action touches it |
| `RunnerResults.EveryScheduleHappens` | crates/idakit-runner/src/runner.rs:167-196 | conversely, every run of the thread system in which answers are the cases' own results happens in a pool of live workers |
| `RunnerResults.StartHealthy` | crates/idakit-runner/src/runner.rs:136-149 | the pool starts as one |
| `WorkerStream.CollectOpen` | crates/idakit-runner/src/runner.rs:265-268 | reading lines and start frames gathers exactly the printed texts in order |
| `WorkerProcess.Worker.RunCase` | crates/idakit-runner/src/runner.rs:236-283 | the request goes out whole, a refused one reports a death, and the loop's result is the collection of lines up to the deadline; a verdict in time is the attributed one and leaves the stream just after it; only a timeout kills the worker |
| `WorkerProcess.DeadlineOnlyCuts` | crates/idakit-runner/src/runner.rs:242-264 | a deadline either times the case out or changes nothing, and cannot fire once more lines have arrived than there are bytes |
| `WorkerProcess.Input.Event` | crates/idakit-runner/src/protocol.rs:163-201 | reading one line consumes and returns what the reader's specification says, or reports the end or a malformed frame |
| `WorkerProcess.Input.Request` | crates/idakit-runner/src/protocol.rs:53-65 | reading one request consumes one line and returns its request, or none |
| `WorkerProcess.Stdout.Print` | crates/idakit-runner/src/worker.rs:64-70 | every line printed reaches the stream with its newline, in order |
| `WorkerProcess.RunOne` | crates/idakit-runner/src/worker.rs:60-86 | one case writes its earlier output, start frame, own output and end frame, in that order; the end frame's status, time and message are those of a result that says how the case ended, in the terms of `WorkerStream.StreamAttributed` |
| `WorkerProcess.ServeRequests` | crates/idakit-runner/src/worker.rs:45-57 | the request loop's output is that of its specification on any input: one case's frames for each run request until a quit, the end, or a line that is no request |
| `ProtocolRoundTrip.ItemRoundTrip` | crates/idakit-runner/src/protocol.rs:135-201 | an item is read back as itself, whatever follows it, if and only if its name or text fits one line and a printed text does not begin with the control byte |
| `ProtocolRoundTrip.StreamRoundTrip` | crates/idakit-runner/src/protocol.rs:135-201 | reading the concatenated bytes of any sequence of well-formed start frames, end frames and lines gives that sequence and then a clean end |
| `ProtocolRoundTrip.RequestRoundTrip` | crates/idakit-runner/src/protocol.rs:41-65 | a request reads back as itself before any other bytes if and only if its name fits one line; spaces are allowed |
| `ProtocolRoundTrip.ReadEnd` | crates/idakit-runner/src/protocol.rs:135-201 | an end frame with any 64-bit time and any message bytes, newlines and control bytes included, reads back exactly and takes exactly the bytes its length declares |
| `ProtocolRoundTrip.ReadIsWellFormed` | crates/idakit-runner/src/protocol.rs:163-176 | whatever a read yields has a one-line name or text without the control byte |
| `ProtocolRoundTrip.UnterminatedOutputHidesFrame` | crates/idakit-runner/src/protocol.rs:163-172 | for any text, message and following bytes, output that does not end its line is read together with the header of the end frame after it, and the message is left on the stream as if it were output; with no message and nothing after, the stream ends without a verdict |
| `RawOutput.RawOutputExact` | crates/idakit-runner/src/protocol.rs:163-201 | over any output bytes whatever and whatever follows: the case gets its own verdict and leaves exactly what follows if and only if the output is empty or ends in a newline and no line of it begins with the control byte other than as a start frame; its lines are then the case's output |
| `RawOutput.CaseOutputExact` | crates/idakit-runner/src/runner.rs:241-264 | of what is printed before a case's start frame only stray control lines hurt it; what is printed after must also end its last line; exactly then the case has its own verdict |
| `Protocol.ParseEndInverts` | crates/idakit-runner/src/protocol.rs:180-192 | the header's fields parse back to the status, time and length written |
| `Protocol.ParseInverts` | crates/idakit-runner/src/protocol.rs:184-192 | a decimal 64-bit number parses back to itself |
| `ProtocolBytes.RequestBytes` | crates/idakit-runner/src/protocol.rs:41-47 | the very bytes of the two requests |
| `ProtocolBytes.RequestMeans` | crates/idakit-runner/src/protocol.rs:53-65 | a line is read as quit exactly if it says `QUIT`, as a case exactly if it is `RUN`, a space and the name, and as no request otherwise |
| `ProtocolBytes.StartBytes` | crates/idakit-runner/src/protocol.rs:135-137 | the very bytes of a start frame |
| `ProtocolBytes.EndBytes` | crates/idakit-runner/src/protocol.rs:138-152 | an end frame is the control byte, `END`, the status word, time and message length as decimal numerals, single spaces between, a newline and the message |
| `ProtocolBytes.ParseExact` | crates/idakit-runner/src/protocol.rs:184-192 | a number field has a value if and only if it is digits after at most one plus sign and fits 64 bits, and then the one they are worth |
| `ProtocolBytes.CarriageReturnIgnored` | crates/idakit-runner/src/protocol.rs:163-172 | a carriage return before the newline is no part of the line |
| `ProtocolBytes.ReadAllStops` | crates/idakit-runner/src/protocol.rs:163-201 | reading to the end is clean if and only if what is left after the lines read is empty and not a bad frame |
| `TypeUnfold.UnfoldsFaithfully` | crates/idakit-sys/facade/typewalk_bridge.cpp:90-251 | after any finished walk, a returned handle unfolds to the input type at every depth, an enum's underlying integer being of the enum's sign and size or four bytes, if and only if the walk reaches no typedef that resolves, without a next name, to an unnamed struct, union or enum |
| `TypeUnfold.DegenerateDisagrees` | crates/idakit-sys/facade/typewalk_bridge.cpp:236-251 | the entry of such a typedef is an alias of itself |
| `TypeSession.WalkEach` | crates/idakit-sys/facade/typewalk_bridge.cpp:154-163 | over any sequence of types walked on one walker, the table's names are exactly those the types reach, entered in depth-first order, each name's body was filled exactly once, nothing is left pending, every handle returned stands for its type, and every enum is recorded with an integer of its own sign and size, or of four bytes |
| `TypeSession.EnumsRecorded` | crates/idakit-sys/facade/typewalk_bridge.cpp:201-232 | in the finished table the underlying handle of every enum, named or not, holds an integer leaf with the definition's sign and with its size, or four bytes if it reports none |
| `TypeSizes.SizeExactly` | crates/idakit/src/types/builder.rs:220-231 | for any walks and any typedef of another stored name: it has its target's size if and only if the target has none or the typedef was not entered between the target's entry and its fill; if not, it has none |
| `TypeSizes.SizeRecorded` | crates/idakit/src/types/builder.rs:220-231 | after any walks the size recorded under every name is the one the input determines: its own, or for a typedef that of the definition its next names lead to, and none past the first lost link; a typedef of itself records none |
| `TypeSizes.SizeByOrder` | crates/idakit/src/types/builder.rs:220-231 | over the definitions and the order of entry alone: a typedef of another stored name fails to adopt its target's size if and only if the target records one and definitions lead from the target to the typedef through names none of which comes before the target in depth-first order; it then records none |
| `TypeSizes.LostForGood` | crates/idakit/src/types/builder.rs:220-231 | a typedef of a typedef that lost its size has none either, and so agrees with its target |
| `TypeSizes.OtherTypedefs` | crates/idakit/src/types/builder.rs:220-231 | any other typedef has its target's size; the target is the typedef itself exactly if it names itself or stands for an unnamed struct, union or enum, and then no size is recorded |
| `TypeSizes.SizeTrusted` | crates/idakit/src/types/builder.rs:220-231 | a typedef whose target does not lead back to it has recorded its target's size |
| `TypeSizes.WalkTargetFirst` | crates/idakit/src/types/builder.rs:220-231 | entering the target first leaves every typedef of it the walk meets without a size, so it keeps the target's size exactly when the target has none |
| `TypeSizes.WalkTypedefFirst` | crates/idakit/src/types/builder.rs:220-231 | entering the typedef first records its target's size |
| `TypeSizes.OrderMatters` | crates/idakit/src/types/builder.rs:220-231 | for a linked-list node and its typedef the two orders record different sizes |
| `TypeSizes.MemberOrderMatters` | crates/idakit/src/types/builder.rs:220-231 | for a third type with a pointer to each, swapping its two members decides whether the typedef's size is there |
| `TypeOrder.WithinIsPath` | crates/idakit-sys/facade/typewalk_bridge.cpp:154-163 | a name is entered between another's entry and its fill if and only if definitions lead from that one to it through names not entered before it |
| `TypeOrder.OrderedEnter` | crates/idakit-sys/facade/typewalk_bridge.cpp:154-163 | entering a name keeps: entries and fills nest, what a filled name mentions was filled no later or entered earlier, and what is entered inside a name is mentioned inside it |
| `TypeOrder.OrderedFill` | crates/idakit/src/types/builder.rs:158-231 | filling the innermost name keeps the same, and the size every typedef read |
| `TypeWalker.Walker.Ty` | crates/idakit-sys/facade/typewalk_bridge.cpp:90-94 | for every store, cyclic ones included, the call ends, adds only names the type leads to, in depth-first order, leaves the placeholders it found, settles every name it enters and returns a handle that stands for the type |
| `TypeWalker.Walker.Resolved` | crates/idakit-sys/facade/typewalk_bridge.cpp:98-128 | the same for an unnamed shape, by its kind |
| `TypeWalker.Walker.Placeholder` | crates/idakit-sys/facade/typewalk_bridge.cpp:154-163 | a name's first sight mints its handle before its body, later ones return the same handle; an unnamed one is always new |
| `TypeWalker.Walker.TyUdt` | crates/idakit-sys/facade/typewalk_bridge.cpp:167-197 | members in order behind the handle minted first; the body is filled on first sight only; a type whose details the library refuses has no members |
| `TypeWalker.Walker.TyEnum` | crates/idakit-sys/facade/typewalk_bridge.cpp:201-232 | the underlying integer has the enum's size, or four bytes without one; constants and display format kept; filled on first sight only |
| `TypeWalker.Walker.TyTypedef` | crates/idakit-sys/facade/typewalk_bridge.cpp:236-251 | one step along the chain on first sight, with the size the target has at that moment |
| `TypeWalker.Walker.TyFunc` | crates/idakit-sys/facade/typewalk_bridge.cpp:255-273 | return and parameter handles stand for the return and parameter types in order |
| `TypeWalker.Walker.Members` | crates/idakit-sys/facade/typewalk_bridge.cpp:174-190 | each member keeps name, offset, width and display format, its handle standing for its type |
| `TypeWalker.Walker.FillNamed` | crates/idakit/src/types/builder.rs:158-231 | filling the name entered leaves every other settled name settled and records the fill once |
| `TypeUnfold.AgreeNext` | crates/idakit-sys/facade/typewalk_bridge.cpp:90-251 | if a name's handle unfolds to its type at every depth, so does every name its definition mentions |
| `TypeTable.InternWF` | crates/idakit/src/types/mod.rs:261-268 | interning returns a handle holding exactly the entry, never a placeholder, and keeps the table consistent |
| `TypeTable.InternShares` | crates/idakit/src/types/mod.rs:261-268 | interning an entry again, whatever was shared meanwhile, gives the same handle and adds nothing |
| `TypeTable.KeepsShared` | crates/idakit/src/types/mod.rs:249-285 | no operation forgets what is shared |
| `TypeTable.RepMono` | crates/idakit/src/types/mod.rs:249-285 | a handle that stands for a type still does after anything is added or filled |
| `RecipeExpr.RecipeRoundTrip` | crates/idakit-sys/facade/type_write_common.cpp:120-268 | for every checked expression, however long its names and however many its parameters, the interpreter accepts the serialized bytes if and only if every width is one the kernel has and no function has more parameters than a 32-bit count; it then builds what the expression denotes with names cut at the longest 32-bit length, so it builds the very type the expression denotes if and only if, besides, every name's length fits 32 bits |
| `RecipeExpr.MeaningExact` | crates/idakit/src/types/expr.rs:664-671 | an expression with its names cut denotes the same type if and only if every name's length fits 32 bits |
| `RecipeExpr.SerializeEncodes` | crates/idakit/src/types/expr.rs:595-671 | for every expression the serializer writes exactly the postfix encoding of its operator trees, clipped lengths and counts included |
| `RecipeExamples.WrapperBytes` | crates/idakit/src/types/expr.rs:616-630 | a wrapper's opcode follows the bytes of any expression it wraps, so a pointer to const and a const pointer differ |
| `RecipeExamples.NoParamBytes` | crates/idakit/src/types/expr.rs:631-658 | the bytes of a function without parameters under every calling convention |
| `RecipeExamples.FunctionBytes` | crates/idakit/src/types/expr.rs:1045-1077 | the bytes of functions with an unnamed and a named parameter, as the repository's tests list them |
| `RecipeExamples.CheckedMeans` | crates/idakit/src/types/expr.rs:562-586 | an expression passes the check if and only if none of its names, declarations and parameter names has a zero byte |
| `RecipeExamples.QualifiersMean` | crates/idakit-sys/facade/type_write_common.cpp:203-214 | a type is const, or volatile, exactly if such a qualifier is among the outermost of its expression |
| `RecipeExpr.LowerMeaning` | crates/idakit-sys/facade/type_write_common.cpp:120-268 | building the operator tree gives what the expression denotes once its names are cut to what 32-bit lengths can say |
| `RecipeExpr.ApplyExpr` | crates/idakit/src/types/expr.rs:546-593 | checking, serializing and interpreting end to end, on every expression, refusals included; the result is the type the expression denotes if and only if it is checked, its widths and counts are ones there are, and every name fits |
| `Recipe.ExecTree` | crates/idakit-sys/facade/type_write_common.cpp:120-268 | executing an encoded tree followed by any bytes on any stack is executing those bytes with the tree pushed, n-ary functions included |
| `Recipe.ExecSound` | crates/idakit-sys/facade/type_write_common.cpp:120-268 | if the machine accepts, the bytes read were exactly what completes its stack to one valid tree's encoding |
| `Recipe.AcceptsExactlyEncodings` | crates/idakit-sys/facade/type_write_common.cpp:120-268 | any buffer is accepted as a tree if and only if it is that valid tree's encoding |
| `Recipe.ExecRejects` | crates/idakit-sys/facade/type_write_common.cpp:24-61 | an operand out of range anywhere in a tree makes the machine refuse it, whatever surrounds it |
| `Recipe.EncodeInjective` | crates/idakit/src/types/expr.rs:595-661 | two different valid trees never share an encoding |
| `Recipe.DecodeInverts` | crates/idakit-sys/facade/type_write_common.cpp:78-116 | an instruction decodes to itself and leaves exactly what follows it |
| `Recipe.DecodeSound` | crates/idakit-sys/facade/type_write_common.cpp:78-116 | whatever decodes was an encoding: the bytes consumed are the instruction's own |
| `RecipeMachine.BuildRecipe` | crates/idakit-sys/facade/type_write_common.cpp:120-268 | on every buffer, well formed or not, the loop ends within bounds and returns what the machine's specification gives, or a refusal |
| `RecipeMachine.Fetch` | crates/idakit-sys/facade/type_write_common.cpp:124-260 | one opcode and its operands, refusing what is cut short, out of range or unknown, always consuming |
| `RecipeMachine.FetchFunction` | crates/idakit-sys/facade/type_write_common.cpp:215-225 | the parameter count is refused before anything is allocated on it unless the bytes left can hold that many length prefixes |
| `RecipeMachine.RecipeReader.ReadLe` | crates/idakit-sys/facade/type_write_common.cpp:94-103 | the little-endian value of the next bytes, or the failed flag |
| `RecipeMachine.RecipeReader.Str` | crates/idakit-sys/facade/type_write_common.cpp:106-115 | a length-prefixed string inside the buffer, or the failed flag |
| `RecipeMachine.RecipeReader.Names` | crates/idakit-sys/facade/type_write_common.cpp:223-225 | that many strings in order, or the failed flag |
| `Recipe.EncodeAllPush` | crates/idakit-sys/facade/type_write_common.cpp:178-248 | applying an instruction appends its bytes to what the stack encodes |
| `CtreeGap.Extract` | crates/idakit/src/decompiler/ctree/extract.rs:383-399 | a tree is rejected if and only if some node of it has a fault or its type table recorded one, and then for the first in the order nodes are walked, a scalar too wide, a type never filled; otherwise the arenas read back as the tree with only its empty optional slots absent, the node of an item has no address exactly if the item's is the absent one and else that address, no node stands at the absent address, children precede parents, and every node but the root has its one parent |
| `CtreeFinish.GoodMirrors` | crates/idakit/src/decompiler/ctree/extract.rs:80-83 | each node of a lowered tree has its item's payload, type and address, no address exactly if the item has the absent one, and each child handle leads to the same for the child |
| `CtreeFinish.AddressReal` | crates/idakit/src/decompiler/ctree/extract.rs:80-83 | no node of a lowered tree stands at the absent address |
| `Ctree.FirstFaultMeans` | crates/idakit/src/decompiler/ctree/extract.rs:383-399 | the fault of a tree is that of the first faulty node with children before parents, and there is none exactly if no node is faulty |
| `Ctree.OwnFaultMeans` | crates/idakit/src/decompiler/ctree/extract.rs:219-269 | a node is faulty by itself exactly if it is an operator of an unknown number, a global without an address or inline assembly with one missing |
| `Ctree.ElideMeans` | crates/idakit-sys/facade/ctree_bridge.cpp:143-219 | only the three slots of a for and the one of a return or throw lose an empty expression |
| `CtreeDecode.DecodeHolds` | crates/idakit-sys/facade/ctree_bridge.cpp:72-219 | arenas that hold a lowered tree read back as exactly that tree from its handle |
| `CtreeDecode.RegroupInverts` | crates/idakit/src/decompiler/ctree/extract.rs:560-583 | a switch's values, flattened with one count a case, regroup to each case's own values |
| `CtreeWalker.WalkExpr` | crates/idakit-sys/facade/ctree_bridge.cpp:72-126 | for any expression: its nodes are appended operands first, nothing before them changes, the first fault is kept, the handle returned is the expression's |
| `CtreeWalker.WalkOperator` | crates/idakit-sys/facade/ctree_bridge.cpp:117-124 | operands in the order x, y, z, the unused ones absent |
| `CtreeWalker.WalkCall` | crates/idakit-sys/facade/ctree_bridge.cpp:107-116 | callee first, then every argument in order |
| `CtreeWalker.WalkBlock` | crates/idakit-sys/facade/ctree_bridge.cpp:134-140 | children in list order before their block |
| `CtreeWalker.WalkStmt` | crates/idakit-sys/facade/ctree_bridge.cpp:143-219 | for any statement: its expressions and statements are appended to the two arenas in visiting order, children first |
| `CtreeWalker.WalkSwitch` | crates/idakit-sys/facade/ctree_bridge.cpp:170-187 | the condition, then the bodies; the values cross flattened and come back grouped |
| `CtreeWalk.CallbackBuilder.PushOperator` | crates/idakit/src/decompiler/ctree/extract.rs:219-269 | an operator of a known kind keeps exactly that kind's operands; an unknown one fails the walk |
| `CtreeWalk.CallbackBuilder.PushSwitch` | crates/idakit/src/decompiler/ctree/extract.rs:560-583 | each body gets the next run of values its count says |
| `CtreeFinish.Adopt` | crates/idakit/src/decompiler/ctree/tree.rs:551-559 | exactly the children of one node get it as parent and are stacked, each with the subtree it heads |
| `CtreeWalk.Close` | crates/idakit/src/decompiler/ctree/extract.rs:129-143 | children emitted and their parent pushed make the whole subtree stand in the arenas |
| `CtreeFinish.WireParents` | crates/idakit/src/decompiler/ctree/tree.rs:531-572 | the loop visits exactly as many nodes as there are, and a node is made another's parent if and only if it lists it as a child; only the root has none |
| `CtreeFinish.OneParent` | crates/idakit/src/decompiler/ctree/tree.rs:514-530 | no node of a lowered tree is the child of two |
| `CtreeFinish.HasParent` | crates/idakit/src/decompiler/ctree/tree.rs:561-564 | every node of a lowered tree but its top is some node's child |
| `CtreeFinish.ChildrenBefore` | crates/idakit-sys/facade/ctree_bridge.cpp:70-71 | a node's children of its own sort have smaller handles than it, and an expression lacks none |
| `CtreeGap.GapIsEmptySlots` | crates/idakit-sys/facade/hexrays.cpp:58-94 | expressions in the tree are expressions the walk emits plus empty for, return and throw slots |
| `CtreeGap.ExprGap` | crates/idakit-sys/facade/hexrays.cpp:168-184 | the expected total is exactly what the walk emits, and the visitor's total exceeds it by exactly the empty slots |
| `CtreeGap.ExprGapVisitor.ApplyTo` | crates/idakit-sys/facade/hexrays.cpp:88-93 | over a whole tree the two histograms grow by all expressions, and by all but the empty slots |
| `CtreeGap.ExprGapVisitor.VisitExpr` | crates/idakit-sys/facade/hexrays.cpp:69-93 | one visit counts the expression, and counts it as materialized unless it is an empty expression in an optional slot of its parent |
| `CtreeGap.CtypeMeans` | crates/idakit-sys/facade/hexrays.cpp:88-93 | an operator is counted under its own number, any other expression under the number of its sort and no other's |
| `Taint.Fixpoint` | crates/idakit/examples/taint.rs:102-114 | the marks are the least set closed under the definitions, reached within one pass for each distinct defined local and one more |
| `Taint.LeastIsFed` | crates/idakit/examples/taint.rs:77-114 | a local is in the least closed set if and only if a finite chain of definitions leads to it from a source call |
| `Taint.TaintedMeans` | crates/idakit/examples/taint.rs:80-87 | a subtree is tainted if and only if it calls a source itself or reads a tainted local |
| `Taint.OrderIrrelevant` | crates/idakit/examples/taint.rs:92-114 | two lists with the same definitions give the same marks, whatever their order and repetitions |
| `Taint.OnePass` | crates/idakit/examples/taint.rs:106-110 | a pass only adds marks every closed set must have, and adds none only if the marks are already closed |
| `Taint.Analyze` | crates/idakit/examples/taint.rs:91-124 | the count is the number of sink calls with a tainted argument, at the least closed set of the tree's definitions |
| `Taint.FlowMeans` | crates/idakit/examples/taint.rs:116-123 | a call is counted if and only if it goes to a sink and some argument calls a source or reads a local that a finite chain feeds |
| `Taint.CallMeans` | crates/idakit/examples/taint.rs:28-63 | a call is of a kind if and only if its callee is a named global or a helper in whose name one of the words occurs |
| `Taint.CollectDefs` | crates/idakit/examples/taint.rs:93-100 | the loop collects the definitions of the tree, which `Taint.DefsAreAssignments` characterizes, in node order |
| `Taint.DefsAreAssignments` | crates/idakit/examples/taint.rs:93-100 | a definition is collected if and only if some assignment node has that local on its left and that expression on its right |
| `Guard.Facade.Guarded` | crates/idakit-sys/facade/internal.h:46-79 | on each of the four endings descriptors, error mode, hook and armed flag are as before, the trapped flag holds if and only if the ending was fatal, and the value, exit code and output are determined; the one exception, exactly when a pipe was made and a standard descriptor could not be duplicated, is that the drain never ends |
| `Guard.Facade.RunCalls` | crates/idakit-sys/facade/internal.h:46-79 | over any sequence of calls the state is restored and the flag, code and output are the last call's |
| `Guard.RestoredExactly` | crates/idakit-sys/facade/runtime.cpp:232-275 | undoing a redirection gives back the very same descriptor table if both standard ones were saved, and otherwise leaves a writer on the pipe |
| `Guard.Facade.BeginCapture` | crates/idakit-sys/facade/runtime.cpp:232-248 | both standard descriptors write to the pipe, the originals are saved where they could be; without a pipe nothing changes |
| `Guard.Facade.EndCapture` | crates/idakit-sys/facade/runtime.cpp:251-275 | saved descriptors are put back; the drain ends if and only if no descriptor still writes to the pipe |
| `Guard.Facade.RunBody` | crates/idakit-sys/facade/runtime.cpp:291-321 | everything written is in the pipe as far as it has room, every message kept until the limit |
| `Guard.MessagesBounded` | crates/idakit-sys/facade/runtime.cpp:289-321 | the message text never passes the limit by as much as one full formatting buffer |
| `Guard.OutputSays` | crates/idakit-sys/facade/runtime.cpp:328-346 | the output is what was heard if any of it is not a blank, and the messages kept, if any, otherwise |
| `Guard.PipedMeans` | crates/idakit-sys/facade/runtime.cpp:232-275 | what is heard is everything written to either stream in order, cut at the pipe's room |
| `Guard.MessagesMean` | crates/idakit-sys/facade/runtime.cpp:289-321 | the messages kept are all those up to the first point at which the limit was reached |
| `Guard.KeptCodeExactly` | crates/idakit-sys/facade/internal.h:63-78 | over any calls the kept exit code is determined by the last fatal one if and only if that one was not an internal error; after one it is what was kept before |
| `Guard.InternalErrorKeepsOldCode` | crates/idakit-sys/facade/internal.h:73-78 | after an internal error the exit code is still an earlier call's, though the flag says trapped |
| `Kernel.EveryRunSafe` | crates/idakit/src/kernel.rs:28-41 | in every run at most one holder has the claim, which is set exactly while one does; at most one initialization succeeds and nothing is used before it; each call and each initialization runs with the affinity global naming its caller, which `Kernel.CallsWhereMoved` ties to the script; no close reaches a kernel with nothing open |
| `Kernel.CallsWhereMoved` | crates/idakit/src/claim.rs:206-226 | in every run, from the script alone: a holder is on the thread of its last move, or of its claim if it never moved, and every call and initialization its next step makes is made by that thread with the affinity global naming it |
| `KernelScripts.HandlesCounted` | crates/idakit/src/kernel.rs:128-151 | from the script alone: an actor has one handle more than clones less drops, and a call can be made exactly while one is left |
| `KernelScripts.AppFollows` | crates/idakit/src/kernel.rs:226-239 | an application is running until the script ends it, and then returned or unwound for good as the script says |
| `KernelScripts.ClaimStartsClean` | crates/idakit/src/kernel.rs:28-35 | a claim granted starts with no database, decompiler, job or handle, and changes nothing else |
| `KernelScripts.OnlyOwnedMoves` | crates/idakit/src/lib.rs:309-330 | in every run only a database handed out in place moves, after one successful initialization, with the claim held |
| `KernelScripts.NobodyWaitsForever` | crates/idakit/src/kernel.rs:128-151 | a call when nobody listens is told so at once, and whoever still waits when the thread ends is told then, nobody else's answer changing |
| `KernelScripts.FailedSetUpFrees` | crates/idakit/src/kernel.rs:180-218 | a set-up that failed leaves the flag clear and the claim free, in place at once and for an actor after its join |
| `KernelScripts.AffinityMeans` | crates/idakit/src/claim.rs:210-226 | the caller may go on exactly if the global was null or its own, and only a null one changes |
| `KernelScripts.UsesMean` | crates/idakit/src/decompiler/mod.rs:37-58 | what each use does to the cache, the decompiler, the flag and the kernel: a decompilation is cached exactly if it succeeds on an open database with the decompiler ready, and only a close of an open database forgets |
| `Kernel.StepKeeps` | crates/idakit/src/kernel.rs:128-239 | each action of any holder, from set-up through the pump and the close to the join, keeps all of it |
| `Kernel.SetUpKeeps` | crates/idakit/src/kernel.rs:284-293 | a failed initialization clears the flag for a retry without a second success ever being possible, and runs with the global naming its thread |
| `Kernel.FlagIsRight` | crates/idakit/src/lib.rs:410-422 | in every reachable state, so also after a job that panicked half way, the kernel has a database open exactly if the holder's flag says so, unless one was abandoned before; a closed one has an empty cache |
| `KernelJobs.EveryRunInTurn` | crates/idakit/src/kernel.rs:128-151 | in every run, whatever jobs do and however they end, an actor has done whole jobs in the order they were sent, one body after the other, then the part of the one under way; each caller is answered once with its own job's ending, the rest wait, and nobody is told the actor is gone |
| `KernelJobs.QueueIsSends` | crates/idakit/src/kernel.rs:128-151 | over any run an actor's queue grows by exactly the jobs sent to it, in order, and an answer once given stays |
| `KernelJobs.PumpFinishes` | crates/idakit/src/kernel.rs:202-206 | from any reachable state the actor's own thread can go on and run every job sent so far, panicking ones included, in a fixed number of steps, leaving each caller its own job's ending |
| `KernelJobs.ActorEnds` | crates/idakit/src/kernel.rs:208-239 | once the application has returned or panicked and the handles are gone, the actor can be brought to its end through close, thread end, join and claim drop, with every job answered and the kernel closed unless one was abandoned before |
| `KernelJobs.StepRight` | crates/idakit/src/kernel.rs:128-239 | each action keeps the trace of every actor's jobs whole and in turn |
| `KernelCalls.Database.Pump` | crates/idakit/src/kernel.rs:201-209 | whatever is sent between one receive and the next, the loop runs every job in the order sent, gives each caller its own job's ending and closes the database once the last handle is gone; its steps, the sends included, are a run of the protocol |
| `KernelCalls.Database.RunJob` | crates/idakit/src/kernel.rs:138-143 | one job runs its body up to its end or its panic and answers its own caller, and the pump goes on |
| `Kernel.ForwardKeeps` | crates/idakit/src/claim.rs:210-226 | after the affinity check the global names the caller, whatever it named before |
| `Kernel.CloseKeeps` | crates/idakit/src/lib.rs:410-422 | closing reaches the kernel only when this database is open, empties the decompilation cache, and leaves the flag clear |
| `KernelCalls.Database.WithOpen` | crates/idakit/src/lib.rs:434-442 | if the open succeeds the database is closed at the end whatever the closure did and however it ended; if it fails nothing is closed |
| `KernelCalls.Database.Close` | crates/idakit/src/lib.rs:410-422 | nothing happens without an open database, else the decompilation cache is emptied, the database closed and what is per-database reset; the step is the protocol's |
| `KernelCalls.Library.BringUpKernel` | crates/idakit/src/kernel.rs:284-298 | the caller becomes the main thread, the library is initialized only if it never was, with the global naming the caller, and a failed attempt leaves the flag clear |
| `Kernel.ReleaseLeavesClosed` | crates/idakit/src/kernel.rs:208-250 | an actor's flag is clear when its claim is dropped, so only an owned database that was not closed leaves one open; then the kernel is open exactly if that or an earlier one was given up open |
| `Kernel.FreeKernelIsClosed` | crates/idakit/src/kernel.rs:180-250 | in every run, an unclaimed kernel has a database open if and only if one was given up open and none has been opened since; if none ever was, its decompilation cache is empty too |
| `Kernel.DroppedWhileOpen` | crates/idakit/src/lib.rs:398-406 | dropping an open in-place database frees the claim with the database still open in the kernel |
| `Invalidation.Session` | crates/idakit/src/location.rs:519-535 | for any writes, failed ones included, the one eviction at the end leaves the cache that evicting after each would have left if the setting was never switched, and no cached entry that a successful write made stale if it is on at the end |
| `Invalidation.AgreeExactly` | crates/idakit/src/location.rs:340-359 | with switching allowed, the coalesced eviction and the one write by write agree for every program, address and cache if and only if the setting ends on and each successful write made while off is no wider than one made while on, or it ends off and no successful write made while on evicts anything |
| `Invalidation.SameLevel` | crates/idakit/src/location.rs:340-359 | for any steps the queued and the write-by-write levels are the same exactly under that condition on the steps |
| `Invalidation.QueuedCoversEager` | crates/idakit/src/location.rs:346-359 | what is queued is never narrower than what evicting at once would have covered |
| `Invalidation.EagerIsOneSweep` | crates/idakit/src/location.rs:537-553 | evicting write by write is one sweep at the widest level |
| `Invalidation.SwitchedOffDiscards` | crates/idakit/src/location.rs:340-343 | switching off after a write discards the eviction it queued |
| `Invalidation.Database.InvalidateDependents` | crates/idakit/src/decompiler/mod.rs:120-134 | the address and every function some reference to it lies in are evicted, and nothing else; nothing at all before the decompiler is up |
| `Invalidation.AffectedMeans` | crates/idakit/src/decompiler/mod.rs:120-134 | what a write makes stale: nothing, its own address, or that and the start of every function a reference to it lies in |
| `FlowChart.Extract` | crates/idakit/src/flowchart.rs:330-351 | block i of a well-formed chart lands at handle i with its range, kind, edges and exits; the first block of an unknown kind rejects the chart |
| `FlowChart.SplitInverts` | crates/idakit/src/flowchart.rs:356-376 | internal successors and exits are an order-preserving partition of the raw edges: woven together they are the edges again, and every internal one is a valid handle |
| `FlowChart.InverseKept` | crates/idakit/src/flowchart.rs:353-388 | if raw successor and predecessor lists are mutually inverse among the proper blocks, with multiplicity, so are the extracted ones |
| `FlowChart.Successors` | crates/idakit/src/flowchart.rs:356-376 | each outside edge becomes an exit read from its stub, in order |

## Left out

- The kernel itself: type resolution, decompilation, analysis and its type constructors. Constructors are free
  constructors that succeed on every width and count the facade accepts; a bitfield always builds.
- TypeWalker.Walker.Ty: a name with no definition in the store is one the library knows but cannot describe, and
  becomes an opaque leaf. The walker is a class, the table inside it a value it reassigns, so the aliasing of the
  two sinks behind one pointer is not captured.
- TypeTable.InternWF: the note of a scalar wider than 255 bytes, which rejects the walk later, is left out, and
  so is the final count of placeholders never filled: a finished walk has none.
- CtreeWalker.WalkExpr: statements inside expressions and expressions inside catch clauses are excluded; that
  the operand count of an operator is its kind's is assumed of the SDK. Node types are handles passed through.
- CtreeGap.Extract: what the type table recorded is an input, and the local-variable table is not part of the
  result.
- CtreeFinish.WireParents: the parent links are a map instead of a field in each node.
- CtreeGap.ExprGapVisitor.ApplyTo: the SDK's traversal is taken to visit every expression once, with its parent.
- Scheduling.Scheduler.BestIndex: products of counts are unbounded, not 64-bit.
- WorkerProcess.Worker.RunCase: time is the number of lines that arrive before the deadline; the reader thread
  and its channel are the stream itself, read in order. The wording of error messages is left out.
- WorkerProcess.ServeRequests: what each handler does is given; write errors towards a runner that went away
  are not modelled.
- Protocol.ParseInverts: invalid UTF-8 is not modelled; names, lines and messages are byte strings.
- RunnerSystem.StepConserves: the threads' loops are actions of the transition system, not methods, and a thread
  that panics while holding a lock is not modelled.
- Guard.Facade.Guarded: the Linux build, calls that do not nest, one capture pipe at a time, standard
  descriptors open and not themselves capture pipes; the jump across frames is an ending of the body.
- Kernel.EveryRunSafe: the channels and threads are actions of the transition system; a failed open is taken to
  leave the kernel as it was; decoding the affinity global's address is a flag that says whether it was found. A
  kernel thread that panics before it reports its set-up is not modelled.
- KernelCalls.Database.Pump: what arrives while a job runs reaches the queue at the next receive, which is the
  first the loop can see of it. A closure is the steps it makes before it ends or panics.
- RunnerResults.EveryResultGenuine: a name stands for one case, with one behaviour in the run.
- Invalidation.Session: references and cached entries change only by the cursor's own eviction.
- FlowChart.Extract: the chart is the kernel's; an address is any number but the absent one.
- Machine-code decoding, relocation rewriting, process groups, build and corpus plumbing, and the thin
  forwarders, which are platform mechanisms or read off one body.
- The nursery that ties workers to the runner: if it cannot be made the run is refused before any case.
- Liveness of blocking calls and fairness: runs are shown finite and never stuck, not scheduled.
