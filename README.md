# kernel-analyzer call-graph core, modelled in Dafny

kernel-analyzer is an LLVM-based static analyzer. Its driver loads LLVM IR
modules and files every externally-linked global and function by GUID. It
then runs `CallGraphPass`, an `IterativeModulePass`. The pass keeps a
field-sensitive points-to graph over abstract node indices (`funcPtsGraph`).
It propagates that graph through the instructions of every function
(`runOnFunction`) and resolves direct and indirect calls into
`Ctx->Callees`. It falls back on type matching (`findCalleesByType`)
for function pointers with no points-to information. Finally it computes
`Ctx->Callers` from the callee sets.

The project models that core:

- `types.dfy` (`Types`): IR types, `isCompatibleType` for LLVM newer than
  12, and `getElementTy` plus the array collapse of `doInitialization`.
- `pts.dfy` (`Pts`): the points-to graph, insertion with its "did it grow"
  report, and the ascending `find_first`/`find_next` walk of a bit-vector
  set.
- `ir.dfy` (`Ir`): the pass's read-only view of the IR. It holds instructions
  as tagged records over node indices, functions, globals and modules. The
  queries answered by the node factory and the struct analyzer are
  parameters (`Env`).
- `transfer.dfy` (`Transfer`): every transfer function of `runOnFunction`,
  `handleCall` and the sweep of `doModulePass`, as functions of the pass
  state. `transfer_props.dfy` (`TransferProps`) proves what each one does.
- `shortcuts.dfy` (`Shortcuts`): the type-shortcut heuristic of
  `doModulePass`.
- `bookkeeping.dfy` (`Bookkeeping`): what `doInitialization` and
  `doFinalization` record.
- `propagation.dfy` (`Propagation`): `doModulePass` over the modules. It
  explains why the `Iteration < 2` guard admits exactly one working sweep.
- `global.dfy` (`Global`): `GlobalContext` with `add`/`get`, and the default
  hooks of `IterativeModulePass`.
- `callgraph.dfy` (`CallGraph`): the pass itself. `CallGraphPass` is a class
  whose fields are the pass's state. Its methods loop over instructions and
  points-to sets, update those fields in place, and are proved to compute
  exactly the state functions of `Transfer`, `Shortcuts`, `Bookkeeping` and
  `Propagation`. `Run` is `IterativeModulePass::run` for this pass.
- `kamain.dfy` (`KAMain`): covers `main` from module loading onwards. A load
  failure skips the module. `doBasicInitialization` fills
  `Gobjs`/`ExtGobjs`/`Funcs`/`ExtFuncs`. The erase loops that separate
  definitions from declarations follow, and then the call-graph pass runs.

Four behaviours of the code are easy to miss, and the model follows the code in each:

- A variadic callee binds no argument. The argument loop of `handleCall`
  for a variadic callee only checks that each actual has a node; the
  binding itself is disabled (CallGraph.cc:199-218).
- Propagation is not run to convergence. `Iteration` is 1 after the single
  initialization sweep, so the `Iteration < 2` guard (CallGraph.cc:819)
  lets exactly one sweep do work. A second, idle sweep follows when the
  first reported a change.
- `retStructs` records the value node of the function
  (`getValueNodeFor(&F)`, CallGraph.cc:730), not its return node.
- Two walks over a points-to set move their cursor. A GEP that resizes an
  opaque object (CallGraph.cc:545) and the allocator heuristic
  (CallGraph.cc:270) reassign `idx`, and `find_next` then resumes above
  the new index. When the new node lies above every pointee, the rest of
  the set is skipped.

## Model

| member | source | states |
|---|---|---|
| Types.IdenticalCompatible | src/lib/CallGraph.cc:44-45 | every type is compatible with itself |
| Types.VoidOnlyWithVoid | src/lib/CallGraph.cc:46-47 | void is compatible exactly with void |
| Types.IntegersCompatible | src/lib/CallGraph.cc:53-55 | any two integer types are compatible, whatever their widths |
| Types.IntegerPointer | src/lib/CallGraph.cc:48-57 | an integer matches a pointer exactly when its width equals the pointer's address space |
| Types.PointerOnlyWithPointer | src/lib/CallGraph.cc:58-63 | a pointer is compatible exactly with every pointer and nothing else |
| Types.NotSymmetric | src/lib/CallGraph.cc:48-63 | the relation is not symmetric: i0 matches a pointer in address space 0, but not the other way round |
| Types.ArraysByElement | src/lib/CallGraph.cc:73-79 | arrays are compatible exactly when their element types are, whatever their lengths |
| Types.LiteralNeverNamed | src/lib/CallGraph.cc:86-88 | a literal struct never matches a named one, in either order |
| Types.LiteralStructsPairwise | src/lib/CallGraph.cc:90-101 | literal structs match exactly when they have equally many elements and these match pairwise |
| Types.NamedStructsByName | src/lib/CallGraph.cc:103-104 | named structs match exactly when their names are equal |
| Types.FunctionsBySignature | src/lib/CallGraph.cc:105-131 | function types match exactly when the return types match and then either both are variadic, or neither is and the parameters match pairwise |
| Types.CompatibleSameKind | src/lib/CallGraph.cc:43-137 | apart from an integer matched against a pointer, compatible types share a type ID |
| Types.ElementTy | src/lib/CallGraph.cc:282-293 | the element type left is neither an array nor a vector |
| Types.GetElementTy | src/lib/CallGraph.cc:282-293 | the strip loop returns the element type after removing every array and vector layer |
| Types.CollapseArrays | src/lib/CallGraph.cc:679-682 | the collapse loop returns the type left after removing every array layer, which is not an array |
| Types.ElementTyIdempotent | src/lib/CallGraph.cc:282-293 | stripping twice is stripping once |
| Types.ElementTyAfterStrip | src/lib/CallGraph.cc:282-293 | stripping arrays first and then arrays and vectors gives getElementTy's result |
| Pts.Add | src/lib/CallGraph.cc:343 | `m[k].insert(s)` creates the entry of `k` if absent, adds `s` to it, and leaves every other entry unchanged |
| Pts.InsertGrew | src/lib/CallGraph.cc:246-249 | an insertion reports a change exactly when the graph grew, and a rejected insertion leaves every points-to set unchanged |
| Pts.First | src/lib/CallGraph.cc:265-266 | the next element of a walk is the smallest one left, and the rest of the walk is the ascending walk of the others |
| Pts.SortedContents | src/lib/CallGraph.cc:265-266 | the ascending walk visits exactly the elements of the set, each once |
| Pts.SortedAbove | src/lib/CallGraph.cc:523 | after the cursor moves to `c`, `find_next` walks exactly the elements above `c`, in ascending order |
| Pts.AboveNone | src/lib/CallGraph.cc:523 | a cursor at or above every element ends the walk |
| Pts.SortedIncreasing | src/lib/CallGraph.cc:522-523 | the walk visits the elements in strictly ascending order |
| Pts.Spread | src/lib/CallGraph.cc:803-812 | adding one value to the entries of a set of keys creates the missing entries and leaves the other keys unchanged |
| Ir.ContainsAt | src/lib/CallGraph.cc:269 | `find(needle) != npos` holds whenever the needle occurs at some position of the name |
| Ir.ContainsOccurs | src/lib/CallGraph.cc:269 | conversely, `find(needle) != npos` holds only when the needle occurs at some position of the name |
| TransferProps.BindArgsProps | src/lib/CallGraph.cc:224-252 | argument binding only grows the graph and changes only formals outside the shortcut nodes, and each such formal covers its actual's set; the flag says whether anything grew |
| TransferProps.ReturnTargetsHas | src/lib/CallGraph.cc:265-274 | every returned object the walk visits contributes its target to the call's node |
| TransferProps.ReturnVisitedWithin | src/lib/CallGraph.cc:265-266 | the return walk visits only returned objects |
| TransferProps.ReturnVisitedMembers | src/lib/CallGraph.cc:265-274 | a returned object is visited exactly when no smaller one was replaced by the allocation, or it lies above the allocation's index |
| TransferProps.ReturnVisitedAll | src/lib/CallGraph.cc:269-270 | for a callee whose name does not contain "alloc" the walk visits every returned object |
| TransferProps.BindReturnProps | src/lib/CallGraph.cc:255-277 | the call's node gains exactly the targets of the returned objects the walk visits, and nothing but the call's node changes |
| TransferProps.HandleCallProps | src/lib/CallGraph.cc:184-280 | handleCall only grows the graph, changes only the formals and the call's node, and returns exactly whether the graph grew |
| TransferProps.HandleCallRejects | src/lib/CallGraph.cc:185-193 | an intrinsic or bodiless callee, or a non-variadic callee called with the wrong argument count, changes nothing and returns false |
| TransferProps.HandleCallVarArg | src/lib/CallGraph.cc:199-218 | a variadic callee binds no argument: only the call's node can change |
| TransferProps.HandleCallBinds | src/lib/CallGraph.cc:224-277 | for a matched callee, each formal outside the shortcut nodes covers its actual; the call's node holds the target of every returned object the walk visits (the fresh allocation for an untyped heap object returned by an "alloc" function), and every returned object itself when the callee's name has no "alloc" |
| TransferProps.RetStepProps | src/lib/CallGraph.cc:312-333 | Ret adds exactly the returned value's set to the return node, and does nothing when there is no value or the return node is a shortcut node |
| TransferProps.StoreToProps | src/lib/CallGraph.cc:488-498 | every non-special pointee of the destination covers the value's set; nothing else changes |
| TransferProps.StoreStepProps | src/lib/CallGraph.cc:474-511 | a non-pointer value stores nothing; otherwise only the destination's pointees change, each non-special one covers the value's set, and the flag is exactly growth |
| TransferProps.CopyFromProps | src/lib/CallGraph.cc:592-664 | BitCast, PHI and Select leave the destination a superset of every source present; when the destination is not a source it gains exactly their union |
| TransferProps.SelectSkipsCondition | src/lib/CallGraph.cc:640-650 | Select never copies from its condition operand |
| TransferProps.LoadFromProps | src/lib/CallGraph.cc:428-461 | the normal load only grows the result; the result covers each pointee's set, except a null object met last, which is inserted itself without reporting a change |
| TransferProps.ShortcutBoundProps | src/lib/CallGraph.cc:407-422 | the shortcut binding adds the type's shortcut object to the result and changes nothing else |
| TransferProps.LoadStepProps | src/lib/CallGraph.cc:400-473 | a result already bound to a shortcut is skipped; otherwise only the result and the shortcut nodes change, the graph only grows, a reported change is growth, and the result points to the shortcut object when the loaded type has one |
| TransferProps.LoadStepCovers | src/lib/CallGraph.cc:428-461 | the result covers the set of each object the pointer points to, except a null object that is the largest pointee |
| TransferProps.LoadOfNull | src/lib/CallGraph.cc:434-440 | loading through a pointer to the null object alone binds null to the result and reports only the shortcut binding |
| TransferProps.GepTargetsMembers | src/lib/CallGraph.cc:522-578 | a node is a GEP target exactly when some pointee the walk visits selects it |
| TransferProps.VisitedWithin | src/lib/CallGraph.cc:522-523 | the GEP walk visits only pointees |
| TransferProps.VisitedMembers | src/lib/CallGraph.cc:522-545 | a pointee is visited exactly when it lies above the new index of every smaller visited pointee that was resized |
| TransferProps.VisitedAll | src/lib/CallGraph.cc:522-523 | when no pointee is resized the walk visits them all |
| TransferProps.GepResizeEndsWalk | src/lib/CallGraph.cc:545 | a resize whose new index lies above every pointee ends the walk after the resized pointee |
| TransferProps.GepFromProps | src/lib/CallGraph.cc:519-579 | the GEP walk only grows the result, and the flag says whether it grew |
| TransferProps.GepFromExact | src/lib/CallGraph.cc:519-578 | with a non-negative offset the result gains exactly the nodes selected by the visited pointees |
| TransferProps.GepFromNegative | src/lib/CallGraph.cc:559-564 | with a negative offset the result gains only pointees that are special nodes |
| TransferProps.GepStepProps | src/lib/CallGraph.cc:512-591 | GetElementPtr changes only its result; with a non-negative offset the new elements are exactly the nodes selected by the pointees the walk visits, and with a negative one only special pointees |
| TransferProps.GepStepVisits | src/lib/CallGraph.cc:522-545 | GetElementPtr visits a pointee exactly when no smaller visited pointee was resized to an index at or above it, and every pointee when none is resized |
| TransferProps.GepTargetCases | src/lib/CallGraph.cc:526-577 | a special pointee is kept as is; a non-opaque pointee too small for the struct is dropped; otherwise the field node is `idx + fieldNum`, or `allocSize - 1` (unsigned) when out of bound |
| TransferProps.CallTargetsMembers | src/lib/CallGraph.cc:355-372 | the indirect callees are exactly the non-special pointees that stand for a function |
| TransferProps.CallWithProps | src/lib/CallGraph.cc:338-345 | calling `cf` records it as reachable, unvisited the first time and a callee of the site, and otherwise only grows the graph |
| TransferProps.IndirectFromRecords | src/lib/CallGraph.cc:353-378 | the indirect-call walk records exactly the pointed-to functions as callees and reachable |
| TransferProps.IndirectFromGraph | src/lib/CallGraph.cc:353-378 | the indirect-call walk only grows the graph, and the flag says whether it grew |
| TransferProps.CallTargetsOfSorted | src/lib/CallGraph.cc:355-372 | walking a points-to set in order finds exactly the functions the set holds |
| TransferProps.DirectCallProps | src/lib/CallGraph.cc:338-346 | a direct call records the callee's definition (getFuncDef) as callee and reachable, the first time as unvisited, and binds the call |
| TransferProps.IndirectCallProps | src/lib/CallGraph.cc:347-382 | an indirect call with a points-to set resolves exactly the functions it points to, and its operand stops being unresolved when the set is non-empty |
| TransferProps.UnknownCallProps | src/lib/CallGraph.cc:383-393 | an indirect call with no points-to set adds the type-matched functions to calleeByType, marks the operand unresolved when there is a match, and reports no change |
| TransferProps.CallStepAdvances | src/lib/CallGraph.cc:334-395 | a call only grows the graph and the callee maps and adds reachable functions, and newly unvisited functions are newly reachable |
| TransferProps.StepProps | src/lib/CallGraph.cc:302-668 | every instruction advances the state in that sense; outside Load and Call the flag is exactly growth of the graph |
| TransferProps.RunFromProps | src/lib/CallGraph.cc:302-669 | the instruction loop advances the state and keeps a change once reported |
| TransferProps.RunOnFunctionProps | src/lib/CallGraph.cc:295-672 | runOnFunction advances the state, and a reachable function leaves `unvisited` |
| TransferProps.SweepFromProps | src/lib/CallGraph.cc:873-880 | the functions loop of doModulePass advances the state |
| TransferProps.UnvisitedStayReachable | src/lib/CallGraph.cc:341-342 | unvisited functions remain reachable ones |
| Shortcuts.CreateShortcutsMap | src/lib/CallGraph.cc:785-800 | after creation a type has a shortcut exactly when it had one or is a candidate: in retStructs, in argStructs, not in globalStructs; a candidate maps to its object |
| Shortcuts.CreateShortcutsBound | src/lib/CallGraph.cc:803-812 | every return and argument node of a candidate type is frozen and points to that type's object |
| Shortcuts.CreateShortcutsGrow | src/lib/CallGraph.cc:785-815 | creation only adds frozen nodes and points-to facts |
| Shortcuts.CreateShortcutsOutside | src/lib/CallGraph.cc:785-815 | a node left unfrozen keeps its entry and its set |
| Shortcuts.NoCandidateNoChange | src/lib/CallGraph.cc:785-790 | without a candidate, creation changes nothing |
| Shortcuts.SpreadInto | src/lib/CallGraph.cc:803-807 | the node loop points every node to the object and freezes it |
| Shortcuts.AddCandidate | src/lib/CallGraph.cc:793-812 | one candidate maps to its object, and its return and argument nodes point to it and are frozen |
| Shortcuts.BuildShortcuts | src/lib/CallGraph.cc:785-815 | the loop over retStructs computes the creation outcome, in whatever order it visits the types |
| Bookkeeping.GlobalsIntoContents | src/lib/CallGraph.cc:676-692 | a node is recorded under a struct exactly when it was, or it is the node of a global whose GUID is not in ExtGobjs and whose array-collapsed type is that struct |
| Bookkeeping.ArgsIntoContents | src/lib/CallGraph.cc:736-748 | a node is recorded under a struct exactly when it was, or it is a formal of pointer-to-that-struct type |
| Bookkeeping.EntriesInContents | src/lib/CallGraph.cc:717-721 | exactly the functions named `main` or `SyS_*` are seeded as entry points |
| Bookkeeping.TakenInContents | src/lib/CallGraph.cc:705-707 | exactly the address-taken functions are collected |
| Bookkeeping.EdgesIntoProps | src/lib/CallGraph.cc:709-714 | the graph only grows, and each address-taken function's value node points to its object node |
| Bookkeeping.EdgesIntoOnly | src/lib/CallGraph.cc:709-714 | a node that is no address-taken function's value node keeps its entry and its set |
| Bookkeeping.CallersIntoProps | src/lib/CallGraph.cc:694-703 | each function's direct call sites become callers of its definition, and existing callers are kept |
| Bookkeeping.CallersIntoOnly | src/lib/CallGraph.cc:694-703 | no other caller is recorded |
| Bookkeeping.RetsIntoContents | src/lib/CallGraph.cc:723-734 | a node is recorded under a struct exactly when it was, or it is the value node of a function returning a pointer to it |
| Bookkeeping.FormalsIntoContents | src/lib/CallGraph.cc:736-748 | a node is recorded under a struct exactly when it was, or it is a pointer-to-that-struct formal of some function |
| Bookkeeping.FinalizeInstrGrows | src/lib/CallGraph.cc:760-771 | finalizing one instruction keeps the callee sets and only grows callers and callees by type |
| Bookkeeping.FinalizeInstrRecords | src/lib/CallGraph.cc:760-771 | a visited call site becomes a caller of each of its callees and gets its callees by type |
| Bookkeeping.FinalizeBodyProps | src/lib/CallGraph.cc:758-773 | after one function, every visited site is a caller of each of its callees, and nothing was removed |
| Bookkeeping.FinalizeFuncsProps | src/lib/CallGraph.cc:757-774 | after doFinalization, `CF in Callees[CI]` implies `CI in Callers[CF]` for every visited site, each has its callees by type, and nothing was removed |
| Bookkeeping.FinalizeOverProps | src/lib/CallGraph.cc:754-777 | the same holds after the finalization sweep over all modules |
| Bookkeeping.RecordCaller | src/lib/CallGraph.cc:765-768 | the loop makes the site a caller of each callee |
| Bookkeeping.CollectArgs | src/lib/CallGraph.cc:736-748 | the argument loop records the formals by struct |
| Bookkeeping.InitFunction | src/lib/CallGraph.cc:694-749 | one function adds its callers, its address-taken entry and edge, its entry-point seed, and its return and argument struct nodes |
| Bookkeeping.CollectFunctions | src/lib/CallGraph.cc:694-749 | the functions loop computes those records for all functions of the module |
| Propagation.ModulePassSettles | src/lib/CallGraph.cc:785-815 | after any doModulePass, shortcuts exist or no type qualifies |
| Propagation.LateModulePassIdle | src/lib/CallGraph.cc:819-884 | once shortcuts are settled, doModulePass at `Iteration >= 2` changes nothing and returns false |
| Propagation.RoundCount | src/lib/KAMain.cc:80-97 | a sweep counts at most one change per module |
| Propagation.RoundSettles | src/lib/KAMain.cc:81-94 | a sweep over at least one module leaves the shortcuts settled, and settled shortcuts stay settled |
| Propagation.LateRoundIdle | src/lib/KAMain.cc:80-97 | once settled, a sweep at `Iteration >= 2` leaves the state unchanged and counts no change, so the propagation loop stops |
| Global.GlobalContext.Add | src/lib/Global.h:49-55 | add registers data under a new name and returns true; on an existing name it returns false and keeps the stored data; afterwards `get` of the name gives the registered data and other names are unaffected |
| Global.GlobalContext.Get | src/lib/Global.h:57-65 | get returns the data stored under a present name, and null otherwise |
| Global.DefaultInitialization | src/lib/Global.h:125-126 | the default doInitialization returns true |
| Global.DefaultFinalization | src/lib/Global.h:129-130 | the default doFinalization returns true |
| Global.DefaultModulePass | src/lib/Global.h:133-134 | the default doModulePass returns false |
| Global.SweepAgain | src/lib/KAMain.cc:70-77 | a sweep asks for another exactly when some module's hook returns true |
| Global.DefaultHooksSweep | src/lib/Global.h:125-134 | with the default hooks, initialization and finalization sweeps ask for another exactly when there is a module, and a propagation sweep never reports a change |
| CallGraph.MatchArgs | src/lib/CallGraph.cc:160-175 | the argument walk succeeds exactly when every formal has a compatible actual at its position; a formal with no actual fails the match |
| CallGraph.IsCandidateFor | src/lib/CallGraph.cc:144-175 | a function matches a call site by type exactly under the rules of findCalleesByType, a variadic one with more formals than actuals failing |
| CallGraph.AddCalleesByType | src/lib/CallGraph.cc:142-179 | the loop over the address-taken functions adds the type-matched ones |
| CallGraph.CallGraphPass.FindCalleesByType | src/lib/CallGraph.cc:140-182 | findCalleesByType adds the type-matched address-taken functions to the set and returns false |
| CallGraph.CallGraphPass.HandleCall | src/lib/CallGraph.cc:184-280 | the method computes handleCall's graph and result, resuming the return walk above a new allocation |
| CallGraph.CallGraphPass.TransferRet | src/lib/CallGraph.cc:312-333 | the method computes the Ret transfer |
| CallGraph.CallGraphPass.LoadPointees | src/lib/CallGraph.cc:428-461 | the pointee walk computes the normal load |
| CallGraph.CallGraphPass.TransferLoad | src/lib/CallGraph.cc:400-473 | the method computes the Load transfer, shortcut included |
| CallGraph.CallGraphPass.TransferStore | src/lib/CallGraph.cc:474-511 | the method computes the Store transfer |
| CallGraph.CallGraphPass.GepField | src/lib/CallGraph.cc:532-574 | a non-opaque pointee too small for the struct is dropped; otherwise the cursor stands on the possibly resized object and the field node is that object's |
| CallGraph.CallGraphPass.TransferGep | src/lib/CallGraph.cc:512-591 | the method computes the GetElementPtr transfer, resuming the walk above a resized object |
| CallGraph.CallGraphPass.TransferCopy | src/lib/CallGraph.cc:592-664 | the method computes the BitCast, PHI and Select transfers |
| CallGraph.CallGraphPass.CallFunction | src/lib/CallGraph.cc:338-345 | recording a callee and handling the call compute the call bookkeeping |
| CallGraph.CallGraphPass.TransferCall | src/lib/CallGraph.cc:334-395 | the method computes the Call/Invoke transfer, for direct, indirect and unresolved calls |
| CallGraph.CallGraphPass.TransferInstr | src/lib/CallGraph.cc:302-668 | the switch computes the transfer of any instruction |
| CallGraph.CallGraphPass.RunOnFunction | src/lib/CallGraph.cc:295-672 | runOnFunction removes F from unvisited and transfers its instructions in order |
| CallGraph.CallGraphPass.CreateTypeShortcuts | src/lib/CallGraph.cc:785-815 | the heuristic updates typeShortcuts, the graph and typeShortcutsObj as the creation outcome says, and leaves the pass inputs unchanged |
| CallGraph.CallGraphPass.CollectGlobals | src/lib/CallGraph.cc:676-692 | the globals loop of doInitialization records struct-typed globals |
| CallGraph.CallGraphPass.DoInitialization | src/lib/CallGraph.cc:674-752 | doInitialization records globals, callers, address-taken functions and their edges, entry points and struct nodes, and returns false |
| CallGraph.CallGraphPass.FinalizeFunction | src/lib/CallGraph.cc:758-773 | the instruction loop of doFinalization over one function |
| CallGraph.CallGraphPass.FinalizeModule | src/lib/CallGraph.cc:757-774 | the function loop of doFinalization |
| CallGraph.CallGraphPass.DoFinalization | src/lib/CallGraph.cc:754-777 | doFinalization updates Callees, Callers and calleeByType for the module, and returns false |
| CallGraph.CallGraphPass.Sweep | src/lib/CallGraph.cc:873-881 | runOnFunction on each function with a body, accumulating the change flag |
| CallGraph.CallGraphPass.DoModulePass | src/lib/CallGraph.cc:779-885 | doModulePass creates shortcuts when there are none, sweeps while `Iteration < 2`, and returns the sweep's change flag, or false later |
| CallGraph.CallGraphPass.ShortcutsOnce | src/lib/CallGraph.cc:784-815 | shortcuts are created only while there are none |
| CallGraph.CallGraphPass.InitSweep | src/lib/KAMain.cc:71-75 | one initialization sweep applies doInitialization to each module in order and asks for no other |
| CallGraph.CallGraphPass.InitializeAll | src/lib/KAMain.cc:68-77 | the initialization loop stops after one sweep and leaves `Iteration` at 1 |
| CallGraph.CallGraphPass.FinalSweep | src/lib/KAMain.cc:103-107 | one finalization sweep applies doFinalization to each module in order |
| CallGraph.CallGraphPass.FinalizeAll | src/lib/KAMain.cc:100-109 | `Iteration` restarts at 0, and the finalization loop stops after one sweep with `Iteration` at 1 |
| CallGraph.CallGraphPass.PassSweep | src/lib/KAMain.cc:82-96 | one propagation sweep counts the modules whose doModulePass returned true |
| CallGraph.CallGraphPass.Propagate | src/lib/KAMain.cc:80-97 | the propagation loop runs the working sweep at `Iteration` 1, then an idle sweep only if something changed, ending at `Iteration` 2 or 3 |
| CallGraph.CallGraphPass.PropagateStep | src/lib/KAMain.cc:81-97 | one trip round the propagation loop advances `Iteration` by one |
| CallGraph.CallGraphPass.Run | src/lib/KAMain.cc:64-112 | run leaves `Iteration` at 1; the shortcuts, the transfer state and the callers are those of one initialization sweep, one propagation sweep and one finalization sweep |
| CallGraph.CallGraphPass.PropagateAndFinalize | src/lib/KAMain.cc:80-109 | the propagation loop followed by the finalization loop |
| KAMain.FileGlobalsSpec | src/lib/KAMain.cc:119-129 | filing globals maps each filed GUID to the last global filed under it; every other GUID keeps its entry or stays absent |
| KAMain.FileFuncsSpec | src/lib/KAMain.cc:132-143 | filing functions maps each filed GUID to the last function filed under it; every other GUID keeps its entry or stays absent |
| KAMain.UniqueGlobalsFiled | src/lib/KAMain.cc:122-124 | when definitions are unique per GUID, as asserted, each defined global is filed under its own GUID |
| KAMain.FileGlobalsKeys | src/lib/KAMain.cc:119-129 | filing keeps existing GUIDs and adds that of every filed global |
| KAMain.FileFuncsKeys | src/lib/KAMain.cc:132-143 | filing keeps existing GUIDs and adds that of every filed function |
| KAMain.BasicInitOverGrows | src/lib/KAMain.cc:172-191 | loading modules only adds GUIDs to the four maps |
| KAMain.DoBasicInitialization | src/lib/KAMain.cc:114-144 | externally-linked defined globals go to Gobjs and declarations to ExtGobjs; externally-linked functions with a body go to Funcs and the others to ExtFuncs; internal ones go nowhere |
| KAMain.CollectGlobals | src/lib/KAMain.cc:118-129 | the globals loop of doBasicInitialization |
| KAMain.CollectFuncs | src/lib/KAMain.cc:131-143 | the functions loop of doBasicInitialization |
| KAMain.LoadedSpec | src/lib/KAMain.cc:177-183 | a module is loaded exactly when some input parsed to it; failures add nothing |
| KAMain.NamesOverSpec | src/lib/KAMain.cc:185-188 | every loaded module gets a name entry, and existing entries are kept |
| KAMain.LoadModules | src/lib/KAMain.cc:172-191 | the loading loop skips failures, appends each loaded module to Modules in order, names it, and files its symbols |
| KAMain.Partition | src/lib/KAMain.cc:193-195 | after the clean-up, no GUID in Gobjs/Funcs remains in ExtGobjs/ExtFuncs, the definitions are untouched, and the remaining declarations keep their entries |
| KAMain.PartitionIdempotent | src/lib/KAMain.cc:193-195 | a second clean-up changes nothing |
| KAMain.Cleanup | src/lib/KAMain.cc:193-195 | the two erase loops compute the clean-up |
| KAMain.EraseDefinedGlobals | src/lib/KAMain.cc:194 | every GUID of Gobjs is erased from ExtGobjs, and nothing else |
| KAMain.EraseDefinedFuncs | src/lib/KAMain.cc:195 | every GUID of Funcs is erased from ExtFuncs, and nothing else |
| KAMain.LoadedFuncsPartitioned | src/lib/KAMain.cc:132-195 | after loading and the clean-up, every externally-linked function of a loaded module is under its GUID in exactly one of Funcs and ExtFuncs; a definition is always in Funcs |
| KAMain.LoadAll | src/lib/KAMain.cc:172-195 | loading followed by the clean-up, from an empty context |
| KAMain.Analyze | src/lib/KAMain.cc:172-202 | main's workflow yields the loaded modules, their names and the partitioned maps, and leaves the call-graph pass run on them at `Iteration` 1 |
| KAMain.RunCallGraph | src/lib/KAMain.cc:201-202 | the pass runs on the context's modules and ends with `Iteration` at 1, its inputs, shortcuts, transfer state and callers those of one initialization, one propagation and one finalization sweep |

## Left out

- LLVM itself is not modelled: IR parsing, `DataLayout` and use-lists. Modules, functions, globals and instructions are records over abstract identities and node indices.
- The node factory, the struct analyzer, `getGEPOffset`, `offsetToFieldNum` and `extendObjectSize` are not part of this model. Their answers are the parameters in `Env`.
- `extendObjectSize`: only its returned index is used. Its side effect on the graph is not modelled.
- `populateNodeFactory` (KAMain.cc:198) and `structAnalyzer.run` (KAMain.cc:116) belong to those collaborators and are not modelled.
- The `CG_LOG`, `WARNING` and `Diag` output, and `dumpCallees`/`dumpCallers`/`dumpFuncPtrs`, are output only.
- The process setup in `main` is not modelled: stack limit, signal handlers, command-line options, `strdup`.
- Each module's name is kept once, in `moduleNames` (ModuleMaps); the name half of the `Modules` pair is the same string and is not stored again.
- `Reachable.h` is declarations only and is not modelled. The C test fixtures are end-to-end inputs with no stated results.
- The `#if 0`/`#else` branches and the commented-out `funcPtsObj` code are dead and left out.
- Only the LLVM newer than 12 branch of `isCompatibleType` is modelled, not the typed-pointer one. The "unhandled type" tail (CallGraph.cc:132-137) compares type IDs, which the model represents as a tag.
- TransferProps.Visited, TransferProps.ReturnVisited: a moved cursor resumes above the new index among the pointees not yet visited. If the new index lay below the current pointee, the source would walk smaller pointees again; the model does not revisit them.
- The points-to sets are treated as ordered sets of node indices with three assumptions about `AndersPtsSet`. First, every element lies below `getSize()`, and `find_next` returns `end` exactly when no element follows; the null-object test of Load (CallGraph.cc:434) relies on this. Second, `getSize() != 0` means the set is non-empty, so the unresolved erase (CallGraph.cc:380) happens exactly when the set has an element. Third, the walks at CallGraph.cc:238, 265, 355, 430, 444, 489 and 522 see a stable set. `PtsGraph` is a `boost::unordered_flat_map` (Global.h:40), and an insertion through `funcPtsGraph[node]` during a walk may rehash it; the model does not capture the invalidated reference that would follow.
- Transfer.ArgsMatch, CallGraph.MatchArgs, CallGraph.IsCandidateFor: for a variadic function with more formals than the call has actuals, the model decides "no match". The source goes on reading operands past `arg_end` (the called operand of a call, the normal destination of an invoke), which the model does not represent.
- Bit-vector points-to sets are walked in ascending order. Iteration over a hash container uses an arbitrary order chosen by `:|`: `AddressTakenFuncs`, `retStructs`, the keys of `Gobjs`/`Funcs`, and a callee set. Every result proved is independent of that order.
- `users()` of a Function is modelled as the set of direct CallInst callers (`directCallers`).
- The `doInitialization` and `doModulePass` loops that the source writes straight into fields are written as value-level loops whose results are assigned back. Aliasing between those fields does not arise.
- Asserts about node existence (`InvalidIndex`) are not modelled. The node indices are given.
- The struct-info assert of a GEP into a struct is a precondition (`InstrSupported`). The heap-object assert before a resize is not modelled.
- KAMain.DoBasicInitialization: the uniqueness asserts on Gobjs/Funcs are not preconditions. A repeated GUID overwrites the earlier entry, as in a build without assertions. `UniqueGlobalsFiled` states the asserted case.
- KAMain.RunCallGraph: states what `CallGraph.CallGraphPass.Run` computes, lifted to the context's modules; `populateNodeFactory` before it is not modelled.
- KAMain.Analyze: states the context and the pass's final `Iteration` only; what the pass computes is stated by `CallGraph.CallGraphPass.Run`, whose heavy contract is kept out of the driver.
- CallGraph.CallGraphPass.Run: only `IterativeModulePass::run` for `CallGraphPass` is modelled. `Global.SweepAgain` and `Global.DefaultHooksSweep` cover the default hooks.
- CallGraph.CallGraphPass.Propagate: requires `Iteration` to be 1 at entry, which is what the initialization loop always leaves.
- CallGraph.CallGraphPass.RunOnFunction: the instructions skipped before the switch, and unhandled opcodes, are single `Skipped`/`Unhandled` cases.
