/** The transfer functions of CallGraphPass as functions of the pass state:
    what each instruction does to the points-to graph, the reachability sets
    and the callee maps, and the `Changed` flag it reports. The methods of
    CallGraph.CallGraphPass are proved to compute exactly these. */
module Transfer {
  import opened Types
  import opened Pts
  import opened Ir

  /** What a transfer reads but does not change: the collaborators, the module
      being processed, the type shortcuts, Ctx->Funcs and Ctx->AddressTakenFuncs. */
  datatype Setting = Setting(
    env: Env,
    moduleId: ModuleId,
    shortcuts: map<StructId, NodeIndex>,
    funcDefs: map<Guid, FuncId>,
    addressTaken: set<FuncId>)

  /** The state runOnFunction updates. */
  datatype PassState = PassState(
    graph: Graph,                            // funcPtsGraph
    shortcutNodes: set<NodeIndex>,           // typeShortcutsObj
    reachable: set<FuncId>,
    unvisited: set<FuncId>,
    unresolved: set<NodeIndex>,              // unresolvedFPts
    callees: map<CallId, set<FuncId>>,       // Ctx->Callees
    calleeByType: map<CallId, set<FuncId>>)

  datatype GraphOut = GraphOut(graph: Graph, changed: bool)
  datatype StepOut = StepOut(state: PassState, changed: bool)

  // ---------------------------------------------------------------- findCalleesByType

  /** Each formal has an actual at its position of a compatible type.
      (An actual list shorter than the formals fails the match.) */
  predicate ArgsMatch(formals: seq<Operand>, actuals: seq<Operand>) {
    forall i | 0 <= i < |formals| :: i < |actuals| && Compatible(formals[i].ty, actuals[i].ty)
  }

  /** `f` may be the target of call site `cs` by its type. */
  predicate TypeMatches(d: FuncDecl, cs: CallSite) {
    && (!d.varArg ==> |d.formals| == |cs.args| && Compatible(d.retTy, cs.ty))
    && !d.intrinsic
    && ArgsMatch(d.formals, cs.args)
  }

  /** The address-taken functions that findCalleesByType adds for `cs`. */
  function CalleesByType(env: Env, addressTaken: set<FuncId>, cs: CallSite): set<FuncId> {
    set f | f in addressTaken && TypeMatches(env.decl(f), cs)
  }

  /** One more address-taken function examined by findCalleesByType: `todo`
      holds those still to examine. */
  lemma CalleesByTypeAdd(env: Env, addressTaken: set<FuncId>, todo: set<FuncId>, f: FuncId, cs: CallSite,
                         fs: set<FuncId>, acc: set<FuncId>, matched: bool)
    requires f in todo && todo <= addressTaken
    requires acc == fs + CalleesByType(env, addressTaken - todo, cs)
    requires matched == TypeMatches(env.decl(f), cs)
    ensures (if matched then acc + {f} else acc) == fs + CalleesByType(env, addressTaken - (todo - {f}), cs)
  {
    assert addressTaken - (todo - {f}) == (addressTaken - todo) + {f};
  }

  // ---------------------------------------------------------------- handleCall

  /** Binding actuals `i..` to the formals of a non-variadic callee. */
  function BindArgs(g: Graph, shortcutNodes: set<NodeIndex>, actuals: seq<Operand>,
                    formals: seq<Operand>, i: nat, changed: bool): GraphOut
    requires |actuals| == |formals| && i <= |actuals|
    decreases |actuals| - i
  {
    if i == |actuals| then GraphOut(g, changed)
    else
      var a := actuals[i].node;
      var f := formals[i].node;
      if a in g && f !in shortcutNodes then
        BindArgs(Insert(g, f, g[a]), shortcutNodes, actuals, formals, i + 1, changed || Adds(g, f, g[a]))
      else
        BindArgs(g, shortcutNodes, actuals, formals, i + 1, changed)
  }

  /** A returned untyped heap object of a function whose name contains
      "alloc" is treated as an allocation of the call. */
  predicate Reallocates(env: Env, d: FuncDecl, idx: NodeIndex) {
    env.isHeap(idx) && env.isOpaque(idx) && Contains(d.name, "alloc")
  }

  /** Such an object is replaced by a fresh allocation for the call. */
  function ReturnTarget(env: Env, d: FuncDecl, cs: CallSite, idx: NodeIndex): NodeIndex {
    if Reallocates(env, d, idx) then env.allocatorObject(cs.id) else idx
  }

  /** The rest of the walk over the returned objects after the first: a
      replacement moves the cursor to the new allocation, so the walk resumes
      above it. */
  function ReturnNext(env: Env, d: FuncDecl, cs: CallSite, elems: seq<NodeIndex>): (r: seq<NodeIndex>)
    requires elems != []
    ensures |r| < |elems|
    ensures forall x :: x in r ==> x in elems[1..] && x in elems
  {
    if Reallocates(env, d, elems[0]) then Above(elems[1..], env.allocatorObject(cs.id)) else elems[1..]
  }

  /** Binding the callee's returned objects `elems` into the call's node. */
  function BindReturn(env: Env, d: FuncDecl, cs: CallSite, g: Graph, elems: seq<NodeIndex>,
                      changed: bool): GraphOut
    decreases |elems|
  {
    if elems == [] then GraphOut(g, changed)
    else
      var o := ReturnTarget(env, d, cs, elems[0]);
      BindReturn(env, d, cs, Insert(g, cs.result, {o}), ReturnNext(env, d, cs, elems),
                 changed || Adds(g, cs.result, {o}))
  }

  /** handleCall(CS, CF). */
  ghost function HandleCall(env: Env, shortcutNodes: set<NodeIndex>, g: Graph,
                            cs: CallSite, cf: FuncId): GraphOut
  {
    var d := env.decl(cf);
    if d.intrinsic || d.empty then GraphOut(g, false)
    else if !d.varArg && |cs.args| != |d.formals| then GraphOut(g, false)
    else
      var bound := if d.varArg then GraphOut(g, false)
                   else BindArgs(g, shortcutNodes, cs.args, d.formals, 0, false);
      if d.retTy.Void? || d.retNode !in bound.graph then bound
      else BindReturn(env, d, cs, bound.graph, Sorted(bound.graph[d.retNode]), bound.changed)
  }

  // ---------------------------------------------------------------- Ret

  function RetStep(shortcutNodes: set<NodeIndex>, g: Graph, f: FuncDecl,
                   returned: Option<NodeIndex>): GraphOut
  {
    if returned.None? || f.retNode in shortcutNodes || returned.value !in g then GraphOut(g, false)
    else GraphOut(Insert(g, f.retNode, g[returned.value]), Adds(g, f.retNode, g[returned.value]))
  }

  // ---------------------------------------------------------------- Load

  /** The shortcut object for a loaded pointer to a shortcut struct type. */
  function LoadShortcut(st: Setting, ty: Ty): Option<NodeIndex> {
    if ty.Pointer? && IsStruct(ty.pointee) then
      match st.env.structInfo(ty.pointee, st.moduleId)
      case Some(si) => if si in st.shortcuts then Some(st.shortcuts[si]) else None
      case None => None
    else None
  }

  /** The normal load: union every pointee's set into the result, except that a
      null object met as the last element is inserted itself and ends the walk
      without reporting a change. */
  function LoadFrom(env: Env, g: Graph, result: NodeIndex, elems: seq<NodeIndex>,
                    changed: bool): GraphOut
    decreases |elems|
  {
    if elems == [] then GraphOut(g, changed)
    else if elems[0] == env.nullObject && |elems| == 1 then
      GraphOut(Insert(g, result, {elems[0]}), changed)
    else if elems[0] in g then
      LoadFrom(env, Insert(g, result, g[elems[0]]), result, elems[1..],
               changed || Adds(g, result, g[elems[0]]))
    else
      LoadFrom(env, g, result, elems[1..], changed)
  }

  ghost function LoadStep(st: Setting, s: PassState, result: NodeIndex, ptr: NodeIndex, ty: Ty): StepOut {
    if result in s.shortcutNodes then StepOut(s, false)
    else
      var sc := LoadShortcut(st, ty);
      var g1 := if sc.Some? then Insert(s.graph, result, {sc.value}) else s.graph;
      var c1 := sc.Some? && Adds(s.graph, result, {sc.value});
      var sn1 := if sc.Some? then s.shortcutNodes + {result} else s.shortcutNodes;
      var out := if ptr in g1 then LoadFrom(st.env, g1, result, Sorted(g1[ptr]), c1) else GraphOut(g1, c1);
      StepOut(s.(graph := out.graph, shortcutNodes := sn1), out.changed)
  }

  // ---------------------------------------------------------------- Store

  /** Every non-special pointee of the destination gets the value's set. */
  function StoreTo(env: Env, g: Graph, value: NodeIndex, elems: seq<NodeIndex>, changed: bool): GraphOut
    decreases |elems|
  {
    if elems == [] then GraphOut(g, changed)
    else if env.isSpecial(elems[0]) then StoreTo(env, g, value, elems[1..], changed)
    else
      StoreTo(env, Insert(g, elems[0], PtsOf(g, value)), value, elems[1..],
              changed || Adds(g, elems[0], PtsOf(g, value)))
  }

  ghost function StoreStep(env: Env, g: Graph, value: Operand, ptr: NodeIndex): GraphOut {
    if !value.ty.Pointer? || value.node !in g || ptr !in g then GraphOut(g, false)
    else StoreTo(env, g, value.node, Sorted(g[ptr]), false)
  }

  // ---------------------------------------------------------------- GetElementPtr

  /** The field node a GEP selects from `base`; an out-of-bound field is
      replaced by node `allocSize - 1` (unsigned, so UINT_MAX for size 0). */
  function FieldTarget(env: Env, base: NodeIndex, fieldNum: nat, allocSize: nat): NodeIndex {
    if env.objectOffset(base) + fieldNum > allocSize then
      (if allocSize == 0 then UINT_MAX else allocSize - 1)
    else base + fieldNum
  }

  /** A non-special pointee too small for the struct the GEP indexes. */
  function TooSmall(env: Env, m: ModuleId, ptrTy: Ty, idx: NodeIndex): bool
    requires IsStruct(ptrTy) ==> env.structInfo(ptrTy, m).Some?
  {
    IsStruct(ptrTy) && env.expandedSize(env.structInfo(ptrTy, m).value) > env.objectSize(idx)
  }

  /** The object a non-special pointee stands for after a possible resize. */
  function GepBase(env: Env, m: ModuleId, ptrTy: Ty, idx: NodeIndex): NodeIndex
    requires IsStruct(ptrTy) ==> env.structInfo(ptrTy, m).Some?
  {
    if TooSmall(env, m, ptrTy, idx) then env.extendObject(idx, env.structInfo(ptrTy, m).value) else idx
  }

  /** What one pointee contributes to the GEP result when the offset is not negative. */
  function GepTarget(env: Env, m: ModuleId, ptrTy: Ty, fieldNum: nat, idx: NodeIndex): Option<NodeIndex>
    requires IsStruct(ptrTy) ==> env.structInfo(ptrTy, m).Some?
  {
    if env.isSpecial(idx) then Some(idx)
    else if TooSmall(env, m, ptrTy, idx) && !env.isOpaque(idx) then None
    else Some(FieldTarget(env, GepBase(env, m, ptrTy, idx), fieldNum, env.objectSize(idx)))
  }

  /** A pointee that the walk resizes: an opaque object too small for the struct. */
  predicate Moves(env: Env, m: ModuleId, ptrTy: Ty, idx: NodeIndex)
    requires IsStruct(ptrTy) ==> env.structInfo(ptrTy, m).Some?
  {
    !env.isSpecial(idx) && TooSmall(env, m, ptrTy, idx) && env.isOpaque(idx)
  }

  /** The rest of the GEP walk after its first pointee: a resize moves the
      cursor to the new object's index, so the walk resumes above it. */
  function NextOf(env: Env, m: ModuleId, ptrTy: Ty, elems: seq<NodeIndex>): (r: seq<NodeIndex>)
    requires IsStruct(ptrTy) ==> env.structInfo(ptrTy, m).Some?
    requires elems != []
    ensures |r| < |elems|
    ensures forall x :: x in r ==> x in elems[1..] && x in elems
  {
    if Moves(env, m, ptrTy, elems[0]) then Above(elems[1..], GepBase(env, m, ptrTy, elems[0])) else elems[1..]
  }

  function GepFrom(env: Env, m: ModuleId, ptrTy: Ty, result: NodeIndex, offset: int,
                   fieldNum: nat, g: Graph, elems: seq<NodeIndex>, changed: bool): GraphOut
    requires IsStruct(ptrTy) ==> env.structInfo(ptrTy, m).Some?
    decreases |elems|
  {
    if elems == [] then GraphOut(g, changed)
    else
      var idx := elems[0];
      if env.isSpecial(idx) then
        GepFrom(env, m, ptrTy, result, offset, fieldNum, Insert(g, result, {idx}), NextOf(env, m, ptrTy, elems),
                changed || Adds(g, result, {idx}))
      else if TooSmall(env, m, ptrTy, idx) && !env.isOpaque(idx) then
        GepFrom(env, m, ptrTy, result, offset, fieldNum, g, NextOf(env, m, ptrTy, elems), changed)
      else if offset < 0 then
        GraphOut(g, changed)
      else
        var nidx := FieldTarget(env, GepBase(env, m, ptrTy, idx), fieldNum, env.objectSize(idx));
        GepFrom(env, m, ptrTy, result, offset, fieldNum, Insert(g, result, {nidx}), NextOf(env, m, ptrTy, elems),
                changed || Adds(g, result, {nidx}))
  }

  ghost function GepStep(env: Env, m: ModuleId, g: Graph, i: Instr): GraphOut
    requires i.Gep? && InstrSupported(env, m, i)
  {
    if i.ptr !in g then GraphOut(g, false)
    else GepFrom(env, m, ElementTy(i.sourceTy), i.result, i.offset, i.fieldNum, g, Sorted(g[i.ptr]), false)
  }

  // ---------------------------------------------------------------- BitCast, PHI, Select

  /** The destination gets the set of every source present in the graph. */
  function CopyFrom(g: Graph, dst: NodeIndex, srcs: seq<NodeIndex>, changed: bool): GraphOut
    decreases |srcs|
  {
    if srcs == [] then GraphOut(g, changed)
    else if srcs[0] in g then
      CopyFrom(Insert(g, dst, g[srcs[0]]), dst, srcs[1..], changed || Adds(g, dst, g[srcs[0]]))
    else
      CopyFrom(g, dst, srcs[1..], changed)
  }

  /** The operands a Select copies from: all but the condition. */
  function SelectSources(operands: seq<NodeIndex>): seq<NodeIndex> {
    if operands == [] then [] else operands[1..]
  }

  // ---------------------------------------------------------------- Call / Invoke

  /** getFuncDef: the definition registered for the function's GUID, if any. */
  function FuncDef(decl: FuncId -> FuncDecl, funcDefs: map<Guid, FuncId>, f: FuncId): FuncId {
    var guid := decl(f).guid;
    if guid in funcDefs then funcDefs[guid] else f
  }

  /** Record `cf` as a callee of `cs`, and as reachable (first time: unvisited). */
  function Reach(s: PassState, cs: CallSite, cf: FuncId): PassState {
    s.(reachable := s.reachable + {cf},
       unvisited := if cf in s.reachable then s.unvisited else s.unvisited + {cf},
       callees := Add(s.callees, cs.id, {cf}))
  }

  ghost function CallWith(st: Setting, s: PassState, cs: CallSite, cf: FuncId): StepOut {
    var s1 := Reach(s, cs, cf);
    var h := HandleCall(st.env, s1.shortcutNodes, s1.graph, cs, cf);
    StepOut(s1.(graph := h.graph), h.changed)
  }

  /** Every function object the called operand points to is a callee. */
  ghost function IndirectFrom(st: Setting, s: PassState, cs: CallSite, elems: seq<NodeIndex>,
                              changed: bool): StepOut
    decreases |elems|
  {
    if elems == [] then StepOut(s, changed)
    else
      var idx := elems[0];
      if st.env.isSpecial(idx) || st.env.functionOf(idx).None? then
        IndirectFrom(st, s, cs, elems[1..], changed)
      else
        var o := CallWith(st, s, cs, st.env.functionOf(idx).value);
        IndirectFrom(st, o.state, cs, elems[1..], changed || o.changed)
  }

  ghost function CallStep(st: Setting, s: PassState, cs: CallSite): StepOut {
    if cs.inlineAsm then StepOut(s, false)
    else match cs.callee
      case Direct(cf) => CallWith(st, s, cs, FuncDef(st.env.decl, st.funcDefs, cf))
      case Indirect(co) =>
        if co in s.graph then
          var o := IndirectFrom(st, s, cs, Sorted(s.graph[co]), false);
          var unresolved := if PtsOf(o.state.graph, co) != {} then o.state.unresolved - {co}
                            else o.state.unresolved;
          StepOut(o.state.(unresolved := unresolved), o.changed)
        else
          // no points-to information: fall back to matching by type
          var ts := Lookup(s.calleeByType, cs.id) + CalleesByType(st.env, st.addressTaken, cs);
          StepOut(s.(calleeByType := s.calleeByType[cs.id := ts],
                     unresolved := if ts != {} then s.unresolved + {co} else s.unresolved), false)
  }

  // ---------------------------------------------------------------- runOnFunction

  function Lift(s: PassState, o: GraphOut): StepOut {
    StepOut(s.(graph := o.graph), o.changed)
  }

  /** The transfer of one instruction of function `f`. */
  ghost function Step(st: Setting, s: PassState, f: FuncDecl, i: Instr): StepOut
    requires InstrSupported(st.env, st.moduleId, i)
  {
    match i
    case Ret(rv) => Lift(s, RetStep(s.shortcutNodes, s.graph, f, rv))
    case Call(cs) => CallStep(st, s, cs)
    case Load(r, p, ty) => LoadStep(st, s, r, p, ty)
    case Store(v, p) => Lift(s, StoreStep(st.env, s.graph, v, p))
    case Gep(_, _, _, _, _) => Lift(s, GepStep(st.env, st.moduleId, s.graph, i))
    case BitCast(r, src) => Lift(s, CopyFrom(s.graph, r, [src], false))
    case Phi(r, inc) => Lift(s, CopyFrom(s.graph, r, inc, false))
    case Select(r, ops) => Lift(s, CopyFrom(s.graph, r, SelectSources(ops), false))
    case Alloca => StepOut(s, false)
    case Skipped => StepOut(s, false)
    case Unhandled => StepOut(s, false)
  }

  /** The instructions `body[i..]` of `f`, in order. */
  ghost function RunFrom(st: Setting, s: PassState, f: FuncDecl, body: seq<Instr>, i: nat,
                         changed: bool): StepOut
    requires i <= |body|
    requires forall k | 0 <= k < |body| :: InstrSupported(st.env, st.moduleId, body[k])
    decreases |body| - i
  {
    if i == |body| then StepOut(s, changed)
    else
      var o := Step(st, s, f, body[i]);
      RunFrom(st, o.state, f, body, i + 1, changed || o.changed)
  }

  /** runOnFunction(F): F leaves `unvisited`, then every instruction is transferred. */
  ghost function RunOnFunction(st: Setting, s: PassState, fid: FuncId): StepOut
    requires FuncSupported(st.env, st.moduleId, fid)
  {
    var f := st.env.decl(fid);
    RunFrom(st, s.(unvisited := s.unvisited - {fid}), f, f.body, 0, false)
  }

  /** doModulePass visits the functions with a body. */
  predicate Processed(d: FuncDecl) {
    !d.declaration && !d.intrinsic && !d.empty
  }

  /** The sweep over the module's functions `funcs[i..]`. */
  ghost function SweepFrom(st: Setting, s: PassState, funcs: seq<FuncId>, i: nat, changed: bool): StepOut
    requires i <= |funcs|
    requires forall k | 0 <= k < |funcs| :: FuncSupported(st.env, st.moduleId, funcs[k])
    decreases |funcs| - i, 1
  {
    if i == |funcs| then StepOut(s, changed)
    else if !Processed(st.env.decl(funcs[i])) then SweepFrom(st, s, funcs, i + 1, changed)
    else SweepVisit(st, s, funcs, i, changed)
  }

  /** The sweep at a function with a body: runOnFunction on it, then the rest. */
  ghost function SweepVisit(st: Setting, s: PassState, funcs: seq<FuncId>, i: nat, changed: bool): StepOut
    requires i < |funcs|
    requires forall k | 0 <= k < |funcs| :: FuncSupported(st.env, st.moduleId, funcs[k])
    decreases |funcs| - i, 0
  {
    var o := RunOnFunction(st, s, funcs[i]);
    SweepFrom(st, o.state, funcs, i + 1, changed || o.changed)
  }
}
