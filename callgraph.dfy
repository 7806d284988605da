/** CallGraphPass: the iterative pass that builds the call graph from a
    field-sensitive points-to graph of function pointers. Each method updates
    the pass's fields in place and is proved to compute the corresponding
    function of module Transfer, Shortcuts or Bookkeeping. */
module CallGraph {
  import opened Types
  import opened Pts
  import opened Ir
  import opened Transfer
  import opened Shortcuts
  import opened Propagation
  import opened Bookkeeping
  import opened Global

  /** Whether every formal has a compatible actual at its position
      (the argument walk of findCalleesByType). */
  method MatchArgs(formals: seq<Operand>, actuals: seq<Operand>) returns (matched: bool)
    ensures matched == ArgsMatch(formals, actuals)
  {
    var i := 0;
    while i < |formals|
      invariant 0 <= i <= |formals|
      invariant forall k | 0 <= k < i :: k < |actuals| && Compatible(formals[k].ty, actuals[k].ty)
    {
      var formal := formals[i];
      if i >= |actuals| || !Compatible(formal.ty, actuals[i].ty) {
        return false;
      }
      i := i + 1;
    }
    return true;
  }

  /** The per-function test of findCalleesByType: a variadic function is
      checked on its fixed arguments only; otherwise the argument count and
      the return type must agree first; intrinsics never match. */
  method IsCandidateFor(d: FuncDecl, cs: CallSite) returns (matched: bool)
    ensures matched == TypeMatches(d, cs)
  {
    var candidate := true;
    if d.varArg {
      // only the fixed arguments are compared
    } else if |d.formals| != |cs.args| {
      candidate := false;
    } else if !Compatible(d.retTy, cs.ty) {
      candidate := false;
    }
    matched := false;
    if candidate && !d.intrinsic {
      matched := MatchArgs(d.formals, cs.args);
    }
  }

  /** The loop of findCalleesByType over the address-taken functions. */
  method AddCalleesByType(env: Env, addressTaken: set<FuncId>, cs: CallSite, fs: set<FuncId>) returns (fs': set<FuncId>)
    ensures fs' == fs + CalleesByType(env, addressTaken, cs)
  {
    fs' := fs;
    var todo := addressTaken;
    while todo != {}
      invariant todo <= addressTaken
      invariant fs' == fs + CalleesByType(env, addressTaken - todo, cs)
      decreases |todo|
    {
      var f :| f in todo;
      var matched := IsCandidateFor(env.decl(f), cs);
      CalleesByTypeAdd(env, addressTaken, todo, f, cs, fs, fs', matched);
      if matched {
        fs' := fs' + {f};
      }
      todo := todo - {f};
    }
    assert addressTaken - todo == addressTaken;
  }

  /** What doModulePass reads once the initialization sweep has run over `ms`. */
  ghost function InitInputs(env: Env, funcDefs: map<Guid, FuncId>, ext: set<Guid>, addressTaken: set<FuncId>,
                            retS: StructNodes, argS: StructNodes, globS: StructNodes, ms: seq<Module>): Inputs {
    Inputs(env, funcDefs, addressTaken + TakenOver(env.decl, ms), RetsOver(env.structInfo, env.decl, ms, retS),
           FormalsOver(env.structInfo, env.decl, ms, argS), GlobalsOver(env.structInfo, ext, ms, globS))
  }

  /** The transfer state once the initialization sweep has run over `ms`. */
  ghost function InitState(decl: FuncId -> FuncDecl, s: PassState, ms: seq<Module>): PassState {
    s.(graph := EdgesOver(decl, ms, s.graph), reachable := s.reachable + EntriesOver(decl, ms),
       unvisited := s.unvisited + EntriesOver(decl, ms))
  }

  class CallGraphPass {
    const env: Env
    const ctx: GlobalContext

    var graph: Graph                               // funcPtsGraph
    var shortcutNodes: set<NodeIndex>              // typeShortcutsObj
    var shortcuts: map<StructId, NodeIndex>        // typeShortcuts
    var reachable: set<FuncId>
    var unvisited: set<FuncId>
    var unresolved: set<NodeIndex>                 // unresolvedFPts
    var calleeByType: map<CallId, set<FuncId>>
    var globalStructs: map<StructId, set<NodeIndex>>
    var retStructs: map<StructId, set<NodeIndex>>
    var argStructs: map<StructId, set<NodeIndex>>
    var iteration: nat                             // IterativeModulePass::Iteration

    constructor (env: Env, ctx: GlobalContext)
      ensures this.env == env && this.ctx == ctx
      ensures graph == map[] && shortcutNodes == {} && shortcuts == map[]
      ensures reachable == {} && unvisited == {} && unresolved == {} && calleeByType == map[]
      ensures globalStructs == map[] && retStructs == map[] && argStructs == map[] && iteration == 0
    {
      this.env := env;
      this.ctx := ctx;
      graph := map[];
      shortcutNodes := {};
      shortcuts := map[];
      reachable := {};
      unvisited := {};
      unresolved := {};
      calleeByType := map[];
      globalStructs := map[];
      retStructs := map[];
      argStructs := map[];
      iteration := 0;
    }

    /** The state the transfer functions update. */
    ghost function State(): PassState
      reads this`graph, this`shortcutNodes, this`reachable, this`unvisited, this`unresolved,
            this`calleeByType, ctx`callees
    {
      PassState(graph, shortcutNodes, reachable, unvisited, unresolved, ctx.callees, calleeByType)
    }

    /** What the transfer functions read of the pass while processing module `m`. */
    ghost function SettingOf(m: ModuleId): Setting
      reads this`shortcuts, ctx`funcs, ctx`addressTaken
    {
      Setting(env, m, shortcuts, ctx.funcs, ctx.addressTaken)
    }

    // ---------------------------------------------------------------- findCalleesByType

    /** findCalleesByType: adds to `fs` the address-taken functions whose type
        fits the call site, and returns false. */
    method FindCalleesByType(cs: CallSite, fs: set<FuncId>) returns (r: bool, fs': set<FuncId>)
      ensures fs' == fs + CalleesByType(env, ctx.addressTaken, cs)
      ensures !r
    {
      fs' := AddCalleesByType(env, ctx.addressTaken, cs, fs);
      return false, fs';
    }

    // ---------------------------------------------------------------- handleCall

    /** handleCall(CS, CF): binds the actuals to the formals and the returned
        objects to the call's node. */
    method HandleCall(cs: CallSite, cf: FuncId) returns (changed: bool)
      modifies this`graph
      ensures GraphOut(graph, changed) == Transfer.HandleCall(env, shortcutNodes, old(graph), cs, cf)
    {
      var d := env.decl(cf);
      if d.intrinsic {
        return false;
      }
      if d.empty {
        return false;
      }
      changed := false;
      if !d.varArg {
        if |cs.args| != |d.formals| {
          return false;
        }
        var i := 0;
        while i < |cs.args|
          invariant 0 <= i <= |cs.args|
          invariant BindArgs(graph, shortcutNodes, cs.args, d.formals, i, changed)
                    == BindArgs(old(graph), shortcutNodes, cs.args, d.formals, 0, false)
        {
          var a := cs.args[i].node;
          if a in graph {
            var f := d.formals[i].node;
            if f !in shortcutNodes {
              var grew := Adds(graph, f, graph[a]);
              graph := Insert(graph, f, graph[a]);
              changed := changed || grew;
            }
          }
          i := i + 1;
        }
      }
      if !d.retTy.Void? && d.retNode in graph {
        ghost var g1, c1 := graph, changed;
        var rest := graph[d.retNode];
        while rest != {}
          invariant BindReturn(env, d, cs, graph, Sorted(rest), changed)
                    == BindReturn(env, d, cs, g1, Sorted(g1[d.retNode]), c1)
          decreases rest
        {
          var idx := First(rest);
          ghost var elems := Sorted(rest);
          rest := rest - {idx};
          assert elems[0] == idx && elems[1..] == Sorted(rest);
          var moved := env.isHeap(idx) && env.isOpaque(idx) && Contains(d.name, "alloc");
          var obj := if moved then env.allocatorObject(cs.id) else idx;
          var grew := Adds(graph, cs.result, {obj});
          ghost var next := ReturnNext(env, d, cs, elems);
          assert BindReturn(env, d, cs, graph, elems, changed)
                 == BindReturn(env, d, cs, Insert(graph, cs.result, {obj}), next, changed || grew);
          graph := Insert(graph, cs.result, {obj});
          changed := changed || grew;
          if moved {
            // the cursor moved to the new allocation: go on above it
            assert next == Above(elems[1..], obj);
            SortedAbove(rest, obj);
            rest := Over(rest, obj);
            assert next == Sorted(rest);
          } else {
            assert next == Sorted(rest);
          }
        }
      }
    }

    // ---------------------------------------------------------------- the instruction cases

    method TransferRet(f: FuncDecl, rv: Option<NodeIndex>) returns (changed: bool)
      modifies this`graph
      ensures GraphOut(graph, changed) == RetStep(shortcutNodes, old(graph), f, rv)
    {
      changed := false;
      if rv.Some? {
        if f.retNode in shortcutNodes {
          return;
        }
        if rv.value in graph {
          changed := Adds(graph, f.retNode, graph[rv.value]);
          graph := Insert(graph, f.retNode, graph[rv.value]);
        }
      }
    }

    /** The load's walk over the pointer's pointees, starting from flag `c0`. */
    method LoadPointees(result: NodeIndex, ptr: NodeIndex, c0: bool) returns (changed: bool)
      requires ptr in graph
      modifies this`graph
      ensures GraphOut(graph, changed) == LoadFrom(env, old(graph), result, Sorted(old(graph)[ptr]), c0)
    {
      changed := c0;
      var rest := graph[ptr];
      while rest != {}
        invariant LoadFrom(env, graph, result, Sorted(rest), changed)
                  == LoadFrom(env, old(graph), result, Sorted(old(graph)[ptr]), c0)
        decreases |rest|
      {
        var idx := First(rest);
        if idx == env.nullObject && rest == {idx} {
          assert Sorted(rest) == [idx];
          graph := Insert(graph, result, {idx});
          return;
        }
        if idx in graph {
          var grew := Adds(graph, result, graph[idx]);
          graph := Insert(graph, result, graph[idx]);
          changed := changed || grew;
        }
        rest := rest - {idx};
      }
    }

    method TransferLoad(m: ModuleId, result: NodeIndex, ptr: NodeIndex, ty: Ty) returns (changed: bool)
      modifies this`graph, this`shortcutNodes
      ensures StepOut(State(), changed) == LoadStep(SettingOf(m), old(State()), result, ptr, ty)
    {
      if result in shortcutNodes {
        return false;
      }
      changed := false;
      if ty.Pointer? && IsStruct(ty.pointee) {
        var si := env.structInfo(ty.pointee, m);
        if si.Some? && si.value in shortcuts {
          var obj := shortcuts[si.value];
          changed := Adds(graph, result, {obj});
          graph := Insert(graph, result, {obj});
          shortcutNodes := shortcutNodes + {result};
        }
      }
      ghost var sc := LoadShortcut(SettingOf(m), ty);
      assert graph == (if sc.Some? then Insert(old(graph), result, {sc.value}) else old(graph));
      assert changed == (sc.Some? && Adds(old(graph), result, {sc.value}));
      assert shortcutNodes == (if sc.Some? then old(shortcutNodes) + {result} else old(shortcutNodes));
      if ptr in graph {
        changed := LoadPointees(result, ptr, changed);
      }
    }

    method TransferStore(value: Operand, ptr: NodeIndex) returns (changed: bool)
      modifies this`graph
      ensures GraphOut(graph, changed) == StoreStep(env, old(graph), value, ptr)
    {
      if !value.ty.Pointer? {
        return false;
      }
      changed := false;
      if value.node in graph && ptr in graph {
        var rest := graph[ptr];
        while rest != {}
          invariant StoreTo(env, graph, value.node, Sorted(rest), changed)
                    == StoreTo(env, old(graph), value.node, Sorted(old(graph)[ptr]), false)
          decreases |rest|
        {
          var idx := First(rest);
          if !env.isSpecial(idx) {
            var grew := Adds(graph, idx, PtsOf(graph, value.node));
            graph := Insert(graph, idx, PtsOf(graph, value.node));
            changed := changed || grew;
          }
          rest := rest - {idx};
        }
      }
    }

    /** The field node of a non-special pointee `idx`, after resizing an opaque
        object too small for the struct; `keep` is false for a non-opaque one,
        which is dropped from the result, and `base` is the index the walk's
        cursor then stands on. */
    method GepField(m: ModuleId, ptrTy: Ty, fieldNum: nat, idx: NodeIndex)
      returns (keep: bool, base: NodeIndex, nidx: NodeIndex)
      requires IsStruct(ptrTy) ==> env.structInfo(ptrTy, m).Some?
      ensures keep == !(TooSmall(env, m, ptrTy, idx) && !env.isOpaque(idx))
      ensures keep ==> base == GepBase(env, m, ptrTy, idx)
      ensures keep ==> nidx == FieldTarget(env, base, fieldNum, env.objectSize(idx))
    {
      var allocSize := env.objectSize(idx);
      base := idx;
      if IsStruct(ptrTy) {
        var si := env.structInfo(ptrTy, m).value;
        if env.expandedSize(si) > allocSize {
          if !env.isOpaque(idx) {
            return false, idx, idx;
          }
          base := env.extendObject(idx, si);
        }
      }
      nidx := base + fieldNum;
      if env.objectOffset(base) + fieldNum > allocSize {
        nidx := if allocSize == 0 then UINT_MAX else allocSize - 1;
      }
      keep := true;
    }

    method TransferGep(m: ModuleId, i: Instr) returns (changed: bool)
      requires i.Gep? && InstrSupported(env, m, i)
      modifies this`graph
      ensures GraphOut(graph, changed) == GepStep(env, m, old(graph), i)
    {
      var ptrTy := GetElementTy(i.sourceTy);
      changed := false;
      if i.ptr in graph {
        var rest := graph[i.ptr];
        while rest != {}
          invariant GepFrom(env, m, ptrTy, i.result, i.offset, i.fieldNum, graph, Sorted(rest), changed)
                    == GepFrom(env, m, ptrTy, i.result, i.offset, i.fieldNum, old(graph), Sorted(old(graph)[i.ptr]), false)
          decreases rest
        {
          var idx := First(rest);
          ghost var elems := Sorted(rest);
          rest := rest - {idx};
          assert elems[0] == idx && elems[1..] == Sorted(rest);
          if env.isSpecial(idx) {
            var grew := Adds(graph, i.result, {idx});
            assert NextOf(env, m, ptrTy, elems) == Sorted(rest);
            assert GepFrom(env, m, ptrTy, i.result, i.offset, i.fieldNum, graph, elems, changed)
                   == GepFrom(env, m, ptrTy, i.result, i.offset, i.fieldNum, Insert(graph, i.result, {idx}), Sorted(rest), changed || grew);
            graph := Insert(graph, i.result, {idx});
            changed := changed || grew;
            continue;
          }
          var keep, base, nidx := GepField(m, ptrTy, i.fieldNum, idx);
          if !keep {
            assert NextOf(env, m, ptrTy, elems) == Sorted(rest);
            continue;
          }
          if i.offset < 0 {
            break;
          }
          var grew := Adds(graph, i.result, {nidx});
          ghost var next := NextOf(env, m, ptrTy, elems);
          assert GepFrom(env, m, ptrTy, i.result, i.offset, i.fieldNum, graph, elems, changed)
                 == GepFrom(env, m, ptrTy, i.result, i.offset, i.fieldNum, Insert(graph, i.result, {nidx}), next, changed || grew);
          graph := Insert(graph, i.result, {nidx});
          changed := changed || grew;
          if TooSmall(env, m, ptrTy, idx) {
            // the cursor moved to the resized object: go on above it
            assert Moves(env, m, ptrTy, idx);
            assert next == Above(elems[1..], base);
            SortedAbove(rest, base);
            rest := Over(rest, base);
            assert next == Sorted(rest);
          } else {
            assert !Moves(env, m, ptrTy, idx);
            assert next == Sorted(rest);
          }
        }
      }
    }

    /** BitCast, PHI and Select: the destination gets the set of each source. */
    method TransferCopy(dst: NodeIndex, srcs: seq<NodeIndex>) returns (changed: bool)
      modifies this`graph
      ensures GraphOut(graph, changed) == CopyFrom(old(graph), dst, srcs, false)
    {
      changed := false;
      var i := 0;
      while i < |srcs|
        invariant 0 <= i <= |srcs|
        invariant CopyFrom(graph, dst, srcs[i..], changed) == CopyFrom(old(graph), dst, srcs, false)
      {
        assert srcs[i..][1..] == srcs[i + 1..];
        if srcs[i] in graph {
          var grew := Adds(graph, dst, graph[srcs[i]]);
          graph := Insert(graph, dst, graph[srcs[i]]);
          changed := changed || grew;
        }
        i := i + 1;
      }
    }

    /** Records `cf` as a callee of `cs` and handles the call. */
    method CallFunction(m: ModuleId, cs: CallSite, cf: FuncId) returns (changed: bool)
      modifies this`graph, this`reachable, this`unvisited, ctx`callees
      ensures StepOut(State(), changed) == CallWith(SettingOf(m), old(State()), cs, cf)
    {
      if cf !in reachable {
        reachable := reachable + {cf};
        unvisited := unvisited + {cf};
      }
      ctx.callees := Add(ctx.callees, cs.id, {cf});
      changed := HandleCall(cs, cf);
    }

    method TransferCall(m: ModuleId, cs: CallSite) returns (changed: bool)
      modifies this`graph, this`reachable, this`unvisited, this`unresolved, this`calleeByType, ctx`callees
      ensures StepOut(State(), changed) == CallStep(SettingOf(m), old(State()), cs)
    {
      if cs.inlineAsm {
        return false;
      }
      match cs.callee
      case Direct(cf) =>
        var rcf := FuncDef(env.decl, ctx.funcs, cf);
        changed := CallFunction(m, cs, rcf);
      case Indirect(co) =>
        if co in graph {
          changed := false;
          var rest := graph[co];
          while rest != {}
            invariant IndirectFrom(SettingOf(m), State(), cs, Sorted(rest), changed)
                      == IndirectFrom(SettingOf(m), old(State()), cs, Sorted(old(graph)[co]), false)
            decreases |rest|
          {
            var idx := First(rest);
            if !env.isSpecial(idx) && env.functionOf(idx).Some? {
              var c := CallFunction(m, cs, env.functionOf(idx).value);
              changed := changed || c;
            }
            rest := rest - {idx};
          }
          if PtsOf(graph, co) != {} {
            unresolved := unresolved - {co};
          }
        } else {
          var _, ts := FindCalleesByType(cs, Lookup(calleeByType, cs.id));
          calleeByType := calleeByType[cs.id := ts];
          if ts != {} {
            unresolved := unresolved + {co};
          }
          changed := false;
        }
    }

    /** The switch of runOnFunction over one instruction of `f`. */
    method TransferInstr(m: ModuleId, f: FuncDecl, i: Instr) returns (changed: bool)
      requires InstrSupported(env, m, i)
      modifies this`graph, this`shortcutNodes, this`reachable, this`unvisited, this`unresolved,
               this`calleeByType, ctx`callees
      ensures StepOut(State(), changed) == Step(SettingOf(m), old(State()), f, i)
    {
      match i
      case Ret(rv) => changed := TransferRet(f, rv);
      case Call(cs) => changed := TransferCall(m, cs);
      case Load(r, p, ty) => changed := TransferLoad(m, r, p, ty);
      case Store(v, p) => changed := TransferStore(v, p);
      case Gep(_, _, _, _, _) => changed := TransferGep(m, i);
      case BitCast(r, src) => changed := TransferCopy(r, [src]);
      case Phi(r, inc) => changed := TransferCopy(r, inc);
      case Select(r, ops) =>
        var srcs := if |ops| == 0 then [] else ops[1..];
        changed := TransferCopy(r, srcs);
      case Alloca => changed := false;
      case Skipped => changed := false;
      case Unhandled => changed := false;
    }

    /** runOnFunction(F). */
    method RunOnFunction(m: ModuleId, fid: FuncId) returns (changed: bool)
      requires FuncSupported(env, m, fid)
      modifies this`graph, this`shortcutNodes, this`reachable, this`unvisited, this`unresolved,
               this`calleeByType, ctx`callees
      ensures StepOut(State(), changed) == Transfer.RunOnFunction(SettingOf(m), old(State()), fid)
    {
      var f := env.decl(fid);
      unvisited := unvisited - {fid};
      changed := false;
      var k := 0;
      while k < |f.body|
        invariant 0 <= k <= |f.body|
        invariant RunFrom(SettingOf(m), State(), f, f.body, k, changed)
                  == Transfer.RunOnFunction(SettingOf(m), old(State()), fid)
      {
        var c := TransferInstr(m, f, f.body[k]);
        changed := changed || c;
        k := k + 1;
      }
    }

    // ---------------------------------------------------------------- type shortcuts

    /** The part of the pass the shortcut heuristic updates. */
    ghost function Shortcut(): ShortcutOut
      reads this`shortcuts, this`graph, this`shortcutNodes
    {
      ShortcutOut(shortcuts, graph, shortcutNodes)
    }

    /** The type-shortcut heuristic of doModulePass, on the pass's shortcuts,
        graph and frozen nodes. */
    method CreateTypeShortcuts()
      modifies this`graph, this`shortcutNodes, this`shortcuts
      ensures InputsOf() == old(InputsOf())
      ensures Shortcut() == CreateShortcuts(env.shortcutObject, old(retStructs), old(argStructs), old(globalStructs),
                                            old(Shortcut()))
    {
      var r := BuildShortcuts(env.shortcutObject, retStructs, argStructs, globalStructs,
                              ShortcutOut(shortcuts, graph, shortcutNodes));
      shortcuts, graph, shortcutNodes := r.shortcuts, r.graph, r.shortcutNodes;
    }
  
    // ---------------------------------------------------------------- doInitialization

    /** The globals loop of doInitialization: a global that is not an external
        declaration and whose type, arrays collapsed, is a struct the analyzer
        knows records its value node under that struct. */
    method CollectGlobals(m: Module) returns (gs: StructNodes)
      ensures gs == GlobalsInto(env.structInfo, ctx.extGobjs.Keys, m.id, m.globals, globalStructs)
    {
      gs := globalStructs;
      var k := 0;
      while k < |m.globals|
        invariant 0 <= k <= |m.globals|
        invariant gs == GlobalsInto(env.structInfo, ctx.extGobjs.Keys, m.id, m.globals[..k], globalStructs)
      {
        var gv := m.globals[k];
        assert m.globals[..k + 1][..k] == m.globals[..k];
        if gv.guid !in ctx.extGobjs {
          var t := CollapseArrays(gv.valueTy);
          if IsStruct(t) {
            var si := env.structInfo(t, m.id);
            if si.Some? {
              gs := Add(gs, si.value, {gv.node});
            }
          }
        }
        k := k + 1;
      }
      assert m.globals[..k] == m.globals;
    }

    /** doInitialization(M): records the module's struct-typed globals, the
        direct callers of its functions, the address-taken functions and their
        value-to-object edges, the entry points, and the struct nodes the
        shortcut heuristic reads; asks for no further sweep. */
    method DoInitialization(m: Module) returns (again: bool)
      modifies this`globalStructs, this`graph, this`reachable, this`unvisited, this`retStructs,
               this`argStructs, ctx`callers, ctx`addressTaken
      ensures !again
      ensures globalStructs == GlobalsInto(env.structInfo, old(ctx.extGobjs).Keys, m.id, m.globals, old(globalStructs))
      ensures ctx.callers == CallersInto(env.decl, old(ctx.funcs), m.funcs, old(ctx.callers))
      ensures ctx.addressTaken == old(ctx.addressTaken) + TakenIn(env.decl, m.funcs)
      ensures graph == EdgesInto(env.decl, m.funcs, old(graph))
      ensures reachable == old(reachable) + EntriesIn(env.decl, m.funcs)
      ensures unvisited == old(unvisited) + EntriesIn(env.decl, m.funcs)
      ensures retStructs == RetsInto(env.structInfo, env.decl, m.id, m.funcs, old(retStructs))
      ensures argStructs == FormalsInto(env.structInfo, env.decl, m.id, m.funcs, old(argStructs))
    {
      var gs := CollectGlobals(m);
      var callers, taken, g, entries, rets, argS :=
        CollectFunctions(env.structInfo, env.decl, ctx.funcs, m, ctx.callers, graph, retStructs, argStructs);
      globalStructs, graph, retStructs, argStructs := gs, g, rets, argS;
      reachable, unvisited := reachable + entries, unvisited + entries;
      ctx.callers, ctx.addressTaken := callers, ctx.addressTaken + taken;
      again := false;
    }

    // ---------------------------------------------------------------- doFinalization

    /** The part of the shared state doFinalization updates. */
    ghost function Final(): FinalState
      reads ctx`callees, ctx`callers, this`calleeByType
    {
      FinalState(ctx.callees, ctx.callers, calleeByType)
    }

    /** The instruction loop of doFinalization over one function's body. */
    method FinalizeFunction(body: seq<Instr>, s: FinalState) returns (r: FinalState)
      ensures r == FinalizeBody(env, ctx.addressTaken, s, body)
    {
      r := s;
      var j := 0;
      while j < |body|
        invariant 0 <= j <= |body|
        invariant r == FinalizeBody(env, ctx.addressTaken, s, body[..j])
      {
        assert body[..j + 1][..j] == body[..j];
        var i := body[j];
        if i.Call? && !i.site.invoke && !i.site.inlineAsm {
          var id := i.site.id;
          var callees := Add(r.callees, id, {});
          var callers := RecordCaller(r.callers, callees[id], id);
          var _, ts := FindCalleesByType(i.site, Lookup(r.calleeByType, id));
          r := FinalState(callees, callers, r.calleeByType[id := ts]);
        }
        j := j + 1;
      }
      assert body[..j] == body;
    }

    /** The function loop of doFinalization. */
    method FinalizeModule(fs: seq<FuncId>, s: FinalState) returns (r: FinalState)
      ensures r == FinalizeFuncs(env, ctx.addressTaken, s, fs)
    {
      r := s;
      var k := 0;
      while k < |fs|
        invariant 0 <= k <= |fs|
        invariant r == FinalizeFuncs(env, ctx.addressTaken, s, fs[..k])
      {
        assert fs[..k + 1][..k] == fs[..k];
        r := FinalizeFunction(env.decl(fs[k]).body, r);
        k := k + 1;
      }
      assert fs[..k] == fs;
    }

    /** doFinalization(M): every call site of the module becomes a caller of
        each of its callees and collects its callees by type; asks for no
        further sweep. */
    method DoFinalization(m: Module) returns (again: bool)
      modifies ctx`callees, ctx`callers, this`calleeByType
      ensures !again
      ensures Final() == FinalizeFuncs(env, ctx.addressTaken, old(Final()), m.funcs)
    {
      var r := FinalizeModule(m.funcs, FinalState(ctx.callees, ctx.callers, calleeByType));
      ctx.callees, ctx.callers, calleeByType := r.callees, r.callers, r.calleeByType;
      again := false;
    }

    // ---------------------------------------------------------------- doModulePass

    /** The functions loop of doModulePass: runOnFunction on each function
        with a body. */
    method Sweep(m: Module) returns (changed: bool)
      requires ModuleSupported(env, m)
      modifies this`graph, this`shortcutNodes, this`reachable, this`unvisited, this`unresolved,
               this`calleeByType, ctx`callees
      ensures StepOut(State(), changed) == SweepFrom(SettingOf(m.id), old(State()), m.funcs, 0, false)
    {
      changed := false;
      var k := 0;
      while k < |m.funcs|
        invariant 0 <= k <= |m.funcs|
        invariant SweepFrom(SettingOf(m.id), State(), m.funcs, k, changed)
                  == SweepFrom(SettingOf(m.id), old(State()), m.funcs, 0, false)
      {
        var f := m.funcs[k];
        if Processed(env.decl(f)) {
          assert SweepFrom(SettingOf(m.id), State(), m.funcs, k, changed)
                 == SweepVisit(SettingOf(m.id), State(), m.funcs, k, changed);
          var c := RunOnFunction(m.id, f);
          changed := changed || c;
        }
        k := k + 1;
      }
    }

    /** What doModulePass reads and never writes. */
    ghost function InputsOf(): Inputs
      reads ctx`funcs, ctx`addressTaken, this`retStructs, this`argStructs, this`globalStructs
    {
      Inputs(env, ctx.funcs, ctx.addressTaken, retStructs, argStructs, globalStructs)
    }

    /** doModulePass(M): creates the type shortcuts when there are none, then
        sweeps the module's functions while `Iteration < 2`; later calls
        report no change. */
    method DoModulePass(m: Module) returns (ret: bool)
      requires ModuleSupported(env, m)
      modifies this`graph, this`shortcutNodes, this`shortcuts, this`reachable, this`unvisited, this`unresolved,
               this`calleeByType, ctx`callees
      ensures InputsOf() == old(InputsOf())
      ensures PassOut(shortcuts, State(), if ret then 1 else 0)
              == ModulePass(old(InputsOf()), old(iteration), old(shortcuts), old(State()), m)
    {
      ShortcutsOnce();
      ret := false;
      if iteration < 2 {
        ret := Sweep(m);
      }
    }

    /** The first step of doModulePass: the type shortcuts are created while
        there are none. */
    method ShortcutsOnce()
      modifies this`graph, this`shortcutNodes, this`shortcuts
      ensures InputsOf() == old(InputsOf())
      ensures Shortcut() == ShortcutStep(old(InputsOf()), old(shortcuts), old(State()))
      ensures State() == old(State()).(graph := graph, shortcutNodes := shortcutNodes)
    {
      if shortcuts == map[] {
        CreateTypeShortcuts();
      }
    }

    // ---------------------------------------------------------------- IterativeModulePass::run

    /** One initialization sweep: `again |= doInitialization(M)` over the modules. */
    method InitSweep(modules: seq<Module>) returns (again: bool)
      modifies this`globalStructs, this`graph, this`reachable, this`unvisited, this`retStructs,
               this`argStructs, ctx`callers, ctx`addressTaken
      ensures !again
      ensures globalStructs == GlobalsOver(env.structInfo, old(ctx.extGobjs).Keys, modules, old(globalStructs))
      ensures ctx.callers == CallersOver(env.decl, old(ctx.funcs), modules, old(ctx.callers))
      ensures ctx.addressTaken == old(ctx.addressTaken) + TakenOver(env.decl, modules)
      ensures graph == EdgesOver(env.decl, modules, old(graph))
      ensures reachable == old(reachable) + EntriesOver(env.decl, modules)
      ensures unvisited == old(unvisited) + EntriesOver(env.decl, modules)
      ensures retStructs == RetsOver(env.structInfo, env.decl, modules, old(retStructs))
      ensures argStructs == FormalsOver(env.structInfo, env.decl, modules, old(argStructs))
    {
      again := false;
      var k := 0;
      while k < |modules|
        invariant 0 <= k <= |modules| && !again
        invariant globalStructs == GlobalsOver(env.structInfo, old(ctx.extGobjs).Keys, modules[..k], old(globalStructs))
        invariant ctx.callers == CallersOver(env.decl, old(ctx.funcs), modules[..k], old(ctx.callers))
        invariant ctx.addressTaken == old(ctx.addressTaken) + TakenOver(env.decl, modules[..k])
        invariant graph == EdgesOver(env.decl, modules[..k], old(graph))
        invariant reachable == old(reachable) + EntriesOver(env.decl, modules[..k])
        invariant unvisited == old(unvisited) + EntriesOver(env.decl, modules[..k])
        invariant retStructs == RetsOver(env.structInfo, env.decl, modules[..k], old(retStructs))
        invariant argStructs == FormalsOver(env.structInfo, env.decl, modules[..k], old(argStructs))
      {
        OverStep(env.structInfo, env.decl, ctx.funcs, old(ctx.extGobjs).Keys, modules, k, old(globalStructs),
                 old(ctx.callers), old(graph), old(retStructs), old(argStructs));
        var a := DoInitialization(modules[k]);
        again := again || a;
        k := k + 1;
      }
      assert modules[..k] == modules;
    }
  
    /** The initialization loop of run: `Iteration` starts at 0 and counts the
        sweeps, which repeat until one in which no doInitialization asks for
        another. */
    method InitializeAll(modules: seq<Module>)
      modifies this`globalStructs, this`graph, this`reachable, this`unvisited, this`retStructs,
               this`argStructs, this`iteration, ctx`callers, ctx`addressTaken
      ensures iteration == 1
      ensures InputsOf() == InitInputs(env, old(ctx.funcs), old(ctx.extGobjs).Keys, old(ctx.addressTaken),
                                       old(retStructs), old(argStructs), old(globalStructs), modules)
      ensures State() == InitState(env.decl, old(State()), modules)
      ensures ctx.callers == CallersOver(env.decl, old(ctx.funcs), modules, old(ctx.callers))
    {
      var again := true;
      iteration := 0;
      while again
        invariant again ==> iteration == 0 && InputsOf() == old(InputsOf()) && State() == old(State())
                            && ctx.callers == old(ctx.callers)
        invariant !again ==> iteration == 1
        invariant !again ==> InputsOf() == InitInputs(env, old(ctx.funcs), old(ctx.extGobjs).Keys, old(ctx.addressTaken),
                                                      old(retStructs), old(argStructs), old(globalStructs), modules)
        invariant !again ==> State() == InitState(env.decl, old(State()), modules)
        invariant !again ==> ctx.callers == CallersOver(env.decl, old(ctx.funcs), modules, old(ctx.callers))
        decreases again
      {
        again := InitSweep(modules);
        iteration := iteration + 1;
      }
    }
  
    /** One finalization sweep: `again |= doFinalization(M)` over the modules. */
    method FinalSweep(modules: seq<Module>) returns (again: bool)
      modifies ctx`callees, ctx`callers, this`calleeByType
      ensures !again
      ensures Final() == FinalizeOver(env, ctx.addressTaken, old(Final()), modules)
    {
      again := false;
      var k := 0;
      while k < |modules|
        invariant 0 <= k <= |modules| && !again
        invariant Final() == FinalizeOver(env, ctx.addressTaken, old(Final()), modules[..k])
      {
        ghost var done := modules[..k + 1];
        assert done[..k] == modules[..k] && done[k] == modules[k];
        var a := DoFinalization(modules[k]);
        again := again || a;
        k := k + 1;
      }
      assert modules[..k] == modules;
    }

    /** The finalization loop of run: `Iteration` restarts at 0 and counts the
        sweeps, which repeat until one in which no doFinalization asks for
        another. */
    method FinalizeAll(modules: seq<Module>)
      modifies ctx`callees, ctx`callers, this`calleeByType, this`iteration
      ensures iteration == 1
      ensures InputsOf() == old(InputsOf()) && State() == old(State()).(callees := ctx.callees, calleeByType := calleeByType)
      ensures Final() == FinalizeOver(env, ctx.addressTaken, old(Final()), modules)
    {
      var again := true;
      iteration := 0;
      while again
        invariant again ==> iteration == 0 && Final() == old(Final())
        invariant !again ==> iteration == 1 && Final() == FinalizeOver(env, ctx.addressTaken, old(Final()), modules)
        decreases again
      {
        again := FinalSweep(modules);
        iteration := iteration + 1;
      }
    }
  
    /** One propagation sweep: doModulePass over the modules, counting those
        that report a change. */
    method PassSweep(modules: seq<Module>) returns (changed: nat)
      requires AllSupported(env, modules)
      modifies this`graph, this`shortcutNodes, this`shortcuts, this`reachable, this`unvisited, this`unresolved,
               this`calleeByType, ctx`callees
      ensures InputsOf() == old(InputsOf())
      ensures PassOut(shortcuts, State(), changed) == Round(old(InputsOf()), old(iteration), old(shortcuts), old(State()), modules)
    {
      ghost var inp, sc0, s0 := InputsOf(), shortcuts, State();
      changed := 0;
      var k := 0;
      while k < |modules|
        invariant 0 <= k <= |modules|
        invariant InputsOf() == inp
        invariant PassOut(shortcuts, State(), changed) == Round(inp, iteration, sc0, s0, modules[..k])
      {
        RoundStep(inp, iteration, sc0, s0, modules, k);
        ghost var q := ModulePass(inp, iteration, shortcuts, State(), modules[k]);
        var ret := DoModulePass(modules[k]);
        assert shortcuts == q.shortcuts && State() == q.state && (if ret then 1 else 0) == q.changed;
        if ret {
          changed := changed + 1;
        }
        k := k + 1;
      }
      assert modules[..k] == modules;
    }

    /** The propagation loop of run, entered after the single initialization
        sweep: the sweep at `Iteration` 1 does all the work, and the loop stops
        after it when no module changed, or after one idle sweep otherwise. */
    method Propagate(modules: seq<Module>)
      requires AllSupported(env, modules)
      requires iteration == 1
      modifies this`graph, this`shortcutNodes, this`shortcuts, this`reachable, this`unvisited, this`unresolved,
               this`calleeByType, this`iteration, ctx`callees
      ensures InputsOf() == old(InputsOf())
      ensures var p := Round(old(InputsOf()), 1, old(shortcuts), old(State()), modules);
              shortcuts == p.shortcuts && State() == p.state && iteration == if p.changed == 0 then 2 else 3
    {
      ghost var inp, sc0, s0 := InputsOf(), shortcuts, State();
      ghost var p := Round(inp, 1, sc0, s0, modules);
      if modules != [] {
        RoundSettles(inp, 1, sc0, s0, modules);
      }
      var changed: nat := 1;
      while changed != 0
        invariant 1 <= iteration <= 3
        invariant InputsOf() == inp
        invariant iteration == 1 ==> changed == 1 && shortcuts == sc0 && State() == s0
        invariant iteration >= 2 ==> shortcuts == p.shortcuts && State() == p.state
        invariant iteration == 2 ==> changed == p.changed
        invariant iteration == 3 ==> changed == 0 && p.changed != 0
        decreases 3 - iteration
      {
        changed := PropagateStep(modules, inp, p);
      }
    }

    /** One trip round the propagation loop: the working sweep at `Iteration`
        1, or the idle sweep at 2 once the shortcuts are settled. */
    method PropagateStep(modules: seq<Module>, ghost inp: Inputs, ghost p: PassOut) returns (changed: nat)
      requires AllSupported(env, modules) && InputsOf() == inp
      requires iteration == 1 || iteration == 2
      requires iteration == 1 ==> p == Round(inp, 1, shortcuts, State(), modules)
      requires iteration == 2 ==> shortcuts == p.shortcuts && State() == p.state && Settled(inp, p.shortcuts)
      modifies this`graph, this`shortcutNodes, this`shortcuts, this`reachable, this`unvisited, this`unresolved,
               this`calleeByType, this`iteration, ctx`callees
      ensures InputsOf() == inp && iteration == old(iteration) + 1
      ensures shortcuts == p.shortcuts && State() == p.state
      ensures changed == if old(iteration) == 1 then p.changed else 0
    {
      if iteration == 2 {
        LateRoundIdle(inp, 2, shortcuts, State(), modules);
      }
      changed := PassSweep(modules);
      iteration := iteration + 1;
    }
  
    /** IterativeModulePass::run for this pass: one initialization sweep, one
        working propagation sweep (followed by an idle one when something
        changed), and one finalization sweep, which leaves `Iteration` at 1. */
    method Run(modules: seq<Module>)
      requires AllSupported(env, modules)
      modifies this`globalStructs, this`graph, this`shortcutNodes, this`shortcuts, this`reachable, this`unvisited,
               this`unresolved, this`calleeByType, this`retStructs, this`argStructs, this`iteration,
               ctx`callers, ctx`addressTaken, ctx`callees
      ensures iteration == 1
      ensures InputsOf() == InitInputs(env, old(ctx.funcs), old(ctx.extGobjs).Keys, old(ctx.addressTaken),
                                       old(retStructs), old(argStructs), old(globalStructs), modules)
      ensures var p := Round(InputsOf(), 1, old(shortcuts), InitState(env.decl, old(State()), modules), modules);
              && shortcuts == p.shortcuts
              && State().(callees := p.state.callees, calleeByType := p.state.calleeByType) == p.state
              && Final() == FinalizeOver(env, ctx.addressTaken,
                                         FinalState(p.state.callees, CallersOver(env.decl, old(ctx.funcs), modules, old(ctx.callers)),
                                                    p.state.calleeByType), modules)
    {
      InitializeAll(modules);
      PropagateAndFinalize(modules);
    }

    /** The propagation loop and the finalization sweep of run. */
    method PropagateAndFinalize(modules: seq<Module>)
      requires AllSupported(env, modules)
      requires iteration == 1
      modifies this`graph, this`shortcutNodes, this`shortcuts, this`reachable, this`unvisited,
               this`unresolved, this`calleeByType, this`iteration, ctx`callers, ctx`callees
      ensures iteration == 1
      ensures InputsOf() == old(InputsOf())
      ensures var p := Round(old(InputsOf()), 1, old(shortcuts), old(State()), modules);
              && shortcuts == p.shortcuts
              && State().(callees := p.state.callees, calleeByType := p.state.calleeByType) == p.state
              && Final() == FinalizeOver(env, ctx.addressTaken,
                                         FinalState(p.state.callees, old(ctx.callers), p.state.calleeByType), modules)
    {
      Propagate(modules);
      FinalizeAll(modules);
    }
  }
}
