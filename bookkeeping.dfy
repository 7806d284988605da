/** The bookkeeping of the call-graph pass around propagation: the per-module
    initialisation (doInitialization) and the callee/caller recomputation
    (doFinalization), as functions of the state they fold over. */
module Bookkeeping {
  import opened Types
  import opened Pts
  import opened Ir
  import opened Transfer

  type StructNodes = map<StructId, set<NodeIndex>>

  // ---------------------------------------------------------------- struct types collected for shortcuts

  /** The struct a global's value type is, once arrays are collapsed, when
      the struct analyzer knows it. */
  function GlobalStruct(structInfo: (Ty, ModuleId) -> Option<StructId>, m: ModuleId, gv: GlobalVar): Option<StructId> {
    var t := StripArrays(gv.valueTy);
    if IsStruct(t) then structInfo(t, m) else None
  }

  /** The struct a pointer type points to, when the struct analyzer knows it. */
  function PointeeStruct(structInfo: (Ty, ModuleId) -> Option<StructId>, m: ModuleId, t: Ty): Option<StructId> {
    if t.Pointer? && IsStruct(t.pointee) then structInfo(t.pointee, m) else None
  }

  /** `structs[stInfo].insert(node)` when there is a struct. */
  function Record(ms: StructNodes, si: Option<StructId>, n: NodeIndex): StructNodes {
    if si.Some? then Add(ms, si.value, {n}) else ms
  }

  lemma RecordLookup(ms: StructNodes, si: Option<StructId>, n: NodeIndex, st: StructId)
    ensures Lookup(Record(ms, si, n), st) == Lookup(ms, st) + (if si == Some(st) then {n} else {})
  {}

  /** The globals loop of doInitialization over `gl`: a global whose GUID is
      not an external declaration records its value node under its struct. */
  function GlobalsInto(structInfo: (Ty, ModuleId) -> Option<StructId>, ext: set<Guid>, m: ModuleId,
                       gl: seq<GlobalVar>, gs: StructNodes): StructNodes
    decreases |gl|
  {
    if gl == [] then gs
    else
      var gs' := GlobalsInto(structInfo, ext, m, gl[..|gl| - 1], gs);
      var gv := gl[|gl| - 1];
      if gv.guid in ext then gs' else Record(gs', GlobalStruct(structInfo, m, gv), gv.node)
  }

  /** A global's node is recorded under a struct exactly when the global is
      not an external declaration and has that struct type. */
  lemma {:induction false} GlobalsIntoContents(structInfo: (Ty, ModuleId) -> Option<StructId>, ext: set<Guid>, m: ModuleId,
                                               gl: seq<GlobalVar>, gs: StructNodes, st: StructId, n: NodeIndex)
    ensures n in Lookup(GlobalsInto(structInfo, ext, m, gl, gs), st)
            <==> n in Lookup(gs, st)
                 || exists k :: 0 <= k < |gl| && gl[k].guid !in ext && GlobalStruct(structInfo, m, gl[k]) == Some(st)
                                && gl[k].node == n
    decreases |gl|
  {
    if gl != [] {
      var init := gl[..|gl| - 1];
      var gv := gl[|gl| - 1];
      GlobalsIntoContents(structInfo, ext, m, init, gs, st, n);
      RecordLookup(GlobalsInto(structInfo, ext, m, init, gs), GlobalStruct(structInfo, m, gv), gv.node, st);
      if exists k :: 0 <= k < |gl| && gl[k].guid !in ext && GlobalStruct(structInfo, m, gl[k]) == Some(st) && gl[k].node == n {
        var k :| 0 <= k < |gl| && gl[k].guid !in ext && GlobalStruct(structInfo, m, gl[k]) == Some(st) && gl[k].node == n;
        if k < |init| {
          assert init[k] == gl[k];
        }
      }
      forall k | 0 <= k < |init| ensures init[k] == gl[k] {}
    }
  }

  /** The argument loop over a function's formals: a pointer-to-struct formal
      records its value node under the struct. */
  function ArgsInto(structInfo: (Ty, ModuleId) -> Option<StructId>, m: ModuleId, formals: seq<Operand>,
                    argS: StructNodes): StructNodes
    decreases |formals|
  {
    if formals == [] then argS
    else
      var a := formals[|formals| - 1];
      Record(ArgsInto(structInfo, m, formals[..|formals| - 1], argS), PointeeStruct(structInfo, m, a.ty), a.node)
  }

  lemma {:induction false} ArgsIntoContents(structInfo: (Ty, ModuleId) -> Option<StructId>, m: ModuleId,
                                            formals: seq<Operand>, argS: StructNodes, st: StructId, n: NodeIndex)
    ensures n in Lookup(ArgsInto(structInfo, m, formals, argS), st)
            <==> n in Lookup(argS, st)
                 || exists k :: 0 <= k < |formals| && PointeeStruct(structInfo, m, formals[k].ty) == Some(st)
                                && formals[k].node == n
    decreases |formals|
  {
    if formals != [] {
      var init := formals[..|formals| - 1];
      var a := formals[|formals| - 1];
      ArgsIntoContents(structInfo, m, init, argS, st, n);
      RecordLookup(ArgsInto(structInfo, m, init, argS), PointeeStruct(structInfo, m, a.ty), a.node, st);
      if exists k :: 0 <= k < |formals| && PointeeStruct(structInfo, m, formals[k].ty) == Some(st) && formals[k].node == n {
        var k :| 0 <= k < |formals| && PointeeStruct(structInfo, m, formals[k].ty) == Some(st) && formals[k].node == n;
        if k < |init| {
          assert init[k] == formals[k];
        }
      }
      forall k | 0 <= k < |init| ensures init[k] == formals[k] {}
    }
  }

  // ---------------------------------------------------------------- the functions loop of doInitialization
  // Each field the loop updates depends only on the functions, so each is
  // its own fold over the module's functions `fs`.

  /** `Ctx->Callers[getFuncDef(&F)]` gains the CallInst users that call F directly
      (the entry is created even when there are none). */
  function CallersInto(decl: FuncId -> FuncDecl, funcDefs: map<Guid, FuncId>, fs: seq<FuncId>,
                       callers: map<FuncId, set<CallId>>): map<FuncId, set<CallId>>
    decreases |fs|
  {
    if fs == [] then callers
    else
      var f := fs[|fs| - 1];
      Add(CallersInto(decl, funcDefs, fs[..|fs| - 1], callers), FuncDef(decl, funcDefs, f), decl(f).directCallers)
  }

  /** The address-taken functions among `fs`. */
  function TakenIn(decl: FuncId -> FuncDecl, fs: seq<FuncId>): set<FuncId>
    decreases |fs|
  {
    if fs == [] then {}
    else
      var f := fs[|fs| - 1];
      TakenIn(decl, fs[..|fs| - 1]) + (if decl(f).addressTaken then {f} else {})
  }

  /** `funcPtsGraph[valNode].insert(objNode)` for each address-taken function. */
  function EdgesInto(decl: FuncId -> FuncDecl, fs: seq<FuncId>, g: Graph): Graph
    decreases |fs|
  {
    if fs == [] then g
    else
      var d := decl(fs[|fs| - 1]);
      var g' := EdgesInto(decl, fs[..|fs| - 1], g);
      if d.addressTaken then Insert(g', d.valueNode, {d.objNode}) else g'
  }

  /** The entry points among `fs`, seeded as reachable and unvisited. */
  function EntriesIn(decl: FuncId -> FuncDecl, fs: seq<FuncId>): set<FuncId>
    decreases |fs|
  {
    if fs == [] then {}
    else
      var f := fs[|fs| - 1];
      EntriesIn(decl, fs[..|fs| - 1]) + (if IsEntryName(decl(f).name) then {f} else {})
  }

  /** retStructs: a function returning a pointer to a struct records its value node. */
  function RetsInto(structInfo: (Ty, ModuleId) -> Option<StructId>, decl: FuncId -> FuncDecl, m: ModuleId,
                    fs: seq<FuncId>, retS: StructNodes): StructNodes
    decreases |fs|
  {
    if fs == [] then retS
    else
      var d := decl(fs[|fs| - 1]);
      Record(RetsInto(structInfo, decl, m, fs[..|fs| - 1], retS), PointeeStruct(structInfo, m, d.retTy), d.valueNode)
  }

  /** argStructs: the argument loop of every function. */
  function FormalsInto(structInfo: (Ty, ModuleId) -> Option<StructId>, decl: FuncId -> FuncDecl, m: ModuleId,
                       fs: seq<FuncId>, argS: StructNodes): StructNodes
    decreases |fs|
  {
    if fs == [] then argS
    else ArgsInto(structInfo, m, decl(fs[|fs| - 1]).formals, FormalsInto(structInfo, decl, m, fs[..|fs| - 1], argS))
  }

  /** The functions-loop folds over one more function. */
  lemma IntoStep(structInfo: (Ty, ModuleId) -> Option<StructId>, decl: FuncId -> FuncDecl,
                 funcDefs: map<Guid, FuncId>, m: ModuleId, fs: seq<FuncId>, k: nat,
                 callers: map<FuncId, set<CallId>>, g: Graph, retS: StructNodes, argS: StructNodes)
    requires k < |fs|
    ensures var f, d := fs[k], decl(fs[k]);
            && CallersInto(decl, funcDefs, fs[..k + 1], callers)
               == Add(CallersInto(decl, funcDefs, fs[..k], callers), FuncDef(decl, funcDefs, f), d.directCallers)
            && TakenIn(decl, fs[..k + 1]) == TakenIn(decl, fs[..k]) + (if d.addressTaken then {f} else {})
            && EdgesInto(decl, fs[..k + 1], g)
               == (if d.addressTaken then Insert(EdgesInto(decl, fs[..k], g), d.valueNode, {d.objNode})
                   else EdgesInto(decl, fs[..k], g))
            && EntriesIn(decl, fs[..k + 1]) == EntriesIn(decl, fs[..k]) + (if IsEntryName(d.name) then {f} else {})
            && RetsInto(structInfo, decl, m, fs[..k + 1], retS)
               == Record(RetsInto(structInfo, decl, m, fs[..k], retS), PointeeStruct(structInfo, m, d.retTy), d.valueNode)
            && FormalsInto(structInfo, decl, m, fs[..k + 1], argS)
               == ArgsInto(structInfo, m, d.formals, FormalsInto(structInfo, decl, m, fs[..k], argS))
  {
    assert fs[..k + 1][..k] == fs[..k];
  }

  /** Exactly the functions named `main` or `SyS_*` are seeded. */
  lemma {:induction false} EntriesInContents(decl: FuncId -> FuncDecl, fs: seq<FuncId>, f: FuncId)
    ensures f in EntriesIn(decl, fs) <==> f in fs && IsEntryName(decl(f).name)
    decreases |fs|
  {
    if fs != [] {
      EntriesInContents(decl, fs[..|fs| - 1], f);
      assert fs == fs[..|fs| - 1] + [fs[|fs| - 1]];
    }
  }

  /** Exactly the address-taken functions are recorded as such. */
  lemma {:induction false} TakenInContents(decl: FuncId -> FuncDecl, fs: seq<FuncId>, f: FuncId)
    ensures f in TakenIn(decl, fs) <==> f in fs && decl(f).addressTaken
    decreases |fs|
  {
    if fs != [] {
      TakenInContents(decl, fs[..|fs| - 1], f);
      assert fs == fs[..|fs| - 1] + [fs[|fs| - 1]];
    }
  }

  /** The graph only grows, and the value node of each address-taken
      function points to its object node. */
  lemma {:induction false} EdgesIntoProps(decl: FuncId -> FuncDecl, fs: seq<FuncId>, g: Graph)
    ensures Le(g, EdgesInto(decl, fs, g))
    ensures forall f | f in fs && decl(f).addressTaken :: decl(f).objNode in PtsOf(EdgesInto(decl, fs, g), decl(f).valueNode)
    decreases |fs|
  {
    if fs == [] {
      LeRefl(g);
    } else {
      var init := fs[..|fs| - 1];
      var f := fs[|fs| - 1];
      EdgesIntoProps(decl, init, g);
      var b := EdgesInto(decl, init, g);
      var r := EdgesInto(decl, fs, g);
      if decl(f).addressTaken {
        InsertLe(b, decl(f).valueNode, {decl(f).objNode});
        LeTrans(g, b, r);
      }
      forall h | h in fs && decl(h).addressTaken ensures decl(h).objNode in PtsOf(r, decl(h).valueNode) {
        if h != f {
          assert h in init by {
            var k :| 0 <= k < |fs| && fs[k] == h;
            assert init[k] == h;
          }
          LePts(b, r, decl(h).valueNode);
        }
      }
    }
  }

  /** A node that is no address-taken function's value node keeps its entry and set. */
  lemma {:induction false} EdgesIntoOnly(decl: FuncId -> FuncDecl, fs: seq<FuncId>, g: Graph, n: NodeIndex)
    requires forall f | f in fs && decl(f).addressTaken :: decl(f).valueNode != n
    ensures (n in EdgesInto(decl, fs, g) <==> n in g) && PtsOf(EdgesInto(decl, fs, g), n) == PtsOf(g, n)
    decreases |fs|
  {
    if fs != [] {
      var init := fs[..|fs| - 1];
      forall f | f in init && decl(f).addressTaken ensures decl(f).valueNode != n {
        var k :| 0 <= k < |init| && init[k] == f;
        assert fs[k] == f;
      }
      EdgesIntoOnly(decl, init, g, n);
    }
  }

  /** Each function's direct call sites are recorded as callers of its
      definition, and existing callers are kept. */
  lemma {:induction false} CallersIntoProps(decl: FuncId -> FuncDecl, funcDefs: map<Guid, FuncId>, fs: seq<FuncId>,
                                            callers: map<FuncId, set<CallId>>)
    ensures Le(callers, CallersInto(decl, funcDefs, fs, callers))
    ensures forall f | f in fs :: decl(f).directCallers <= Lookup(CallersInto(decl, funcDefs, fs, callers), FuncDef(decl, funcDefs, f))
    decreases |fs|
  {
    if fs == [] {
      LeRefl(callers);
    } else {
      var init := fs[..|fs| - 1];
      var f := fs[|fs| - 1];
      CallersIntoProps(decl, funcDefs, init, callers);
      var b := CallersInto(decl, funcDefs, init, callers);
      var r := CallersInto(decl, funcDefs, fs, callers);
      AddLe(b, FuncDef(decl, funcDefs, f), decl(f).directCallers);
      LeTrans(callers, b, r);
      forall h | h in fs ensures decl(h).directCallers <= Lookup(r, FuncDef(decl, funcDefs, h)) {
        if h != f {
          assert h in init by {
            var k :| 0 <= k < |fs| && fs[k] == h;
            assert init[k] == h;
          }
          LeLookup(b, r, FuncDef(decl, funcDefs, h));
        }
      }
    }
  }

  /** And no other caller is recorded. */
  lemma {:induction false} CallersIntoOnly(decl: FuncId -> FuncDecl, funcDefs: map<Guid, FuncId>, fs: seq<FuncId>,
                                           callers: map<FuncId, set<CallId>>, g: FuncId, c: CallId)
    requires c in Lookup(CallersInto(decl, funcDefs, fs, callers), g)
    ensures c in Lookup(callers, g) || exists f | f in fs :: FuncDef(decl, funcDefs, f) == g && c in decl(f).directCallers
    decreases |fs|
  {
    if fs != [] {
      var init := fs[..|fs| - 1];
      var f := fs[|fs| - 1];
      if !(FuncDef(decl, funcDefs, f) == g && c in decl(f).directCallers) {
        CallersIntoOnly(decl, funcDefs, init, callers, g, c);
        if c !in Lookup(callers, g) {
          var h :| h in init && FuncDef(decl, funcDefs, h) == g && c in decl(h).directCallers;
          var k :| 0 <= k < |init| && init[k] == h;
          assert fs[k] == h;
        }
      }
    }
  }

  /** A function's value node is recorded under the struct its return type
      points to, and nothing else is recorded. */
  lemma {:induction false} RetsIntoContents(structInfo: (Ty, ModuleId) -> Option<StructId>, decl: FuncId -> FuncDecl, m: ModuleId,
                                            fs: seq<FuncId>, retS: StructNodes, st: StructId, n: NodeIndex)
    ensures n in Lookup(RetsInto(structInfo, decl, m, fs, retS), st)
            <==> n in Lookup(retS, st)
                 || exists f | f in fs :: PointeeStruct(structInfo, m, decl(f).retTy) == Some(st) && decl(f).valueNode == n
    decreases |fs|
  {
    if fs != [] {
      var init := fs[..|fs| - 1];
      var f := fs[|fs| - 1];
      RetsIntoContents(structInfo, decl, m, init, retS, st, n);
      RecordLookup(RetsInto(structInfo, decl, m, init, retS), PointeeStruct(structInfo, m, decl(f).retTy), decl(f).valueNode, st);
      assert fs == init + [f];
    }
  }

  /** A pointer-to-struct formal of any function is recorded under its
      struct, and nothing else is recorded. */
  lemma {:induction false} FormalsIntoContents(structInfo: (Ty, ModuleId) -> Option<StructId>, decl: FuncId -> FuncDecl, m: ModuleId,
                                               fs: seq<FuncId>, argS: StructNodes, st: StructId, n: NodeIndex)
    ensures n in Lookup(FormalsInto(structInfo, decl, m, fs, argS), st)
            <==> n in Lookup(argS, st)
                 || exists f, a | f in fs && a in decl(f).formals :: PointeeStruct(structInfo, m, a.ty) == Some(st) && a.node == n
    decreases |fs|
  {
    if fs != [] {
      var init := fs[..|fs| - 1];
      var f := fs[|fs| - 1];
      FormalsIntoContents(structInfo, decl, m, init, argS, st, n);
      ArgsIntoContents(structInfo, m, decl(f).formals, FormalsInto(structInfo, decl, m, init, argS), st, n);
      assert fs == init + [f];
      if exists a | a in decl(f).formals :: PointeeStruct(structInfo, m, a.ty) == Some(st) && a.node == n {
        var a :| a in decl(f).formals && PointeeStruct(structInfo, m, a.ty) == Some(st) && a.node == n;
        var j :| 0 <= j < |decl(f).formals| && decl(f).formals[j] == a;
      }
    }
  }

  // ---------------------------------------------------------------- doFinalization

  /** What doFinalization updates. */
  datatype FinalState = FinalState(
    callees: map<CallId, set<FuncId>>,   // Ctx->Callees
    callers: map<FuncId, set<CallId>>,   // Ctx->Callers
    calleeByType: map<CallId, set<FuncId>>)

  /** doFinalization visits CallInsts only (an invoke is not one), and skips inline assembly. */
  predicate Finalized(i: Instr) {
    i.Call? && !i.site.invoke && !i.site.inlineAsm
  }

  /** One instruction: the site becomes a caller of each of its callees, and
      collects its callees by type. */
  function FinalizeInstr(env: Env, addressTaken: set<FuncId>, s: FinalState, i: Instr): FinalState {
    if Finalized(i) then
      var id := i.site.id;
      var callees := Add(s.callees, id, {});
      FinalState(callees, Spread(s.callers, callees[id], id),
                 Add(s.calleeByType, id, CalleesByType(env, addressTaken, i.site)))
    else s
  }

  /** The instructions `body` of one function, in order. */
  function FinalizeBody(env: Env, addressTaken: set<FuncId>, s: FinalState, body: seq<Instr>): FinalState
    decreases |body|
  {
    if body == [] then s
    else FinalizeInstr(env, addressTaken, FinalizeBody(env, addressTaken, s, body[..|body| - 1]), body[|body| - 1])
  }

  /** The functions `fs` of the module, in order. */
  function FinalizeFuncs(env: Env, addressTaken: set<FuncId>, s: FinalState, fs: seq<FuncId>): FinalState
    decreases |fs|
  {
    if fs == [] then s
    else FinalizeBody(env, addressTaken, FinalizeFuncs(env, addressTaken, s, fs[..|fs| - 1]), env.decl(fs[|fs| - 1]).body)
  }

  /** The call sites doFinalization visits in `body`. */
  function BodySites(body: seq<Instr>): set<CallSite> {
    set j | 0 <= j < |body| && Finalized(body[j]) :: body[j].site
  }

  /** The call sites doFinalization visits in the functions `fs`. */
  function ModuleSites(env: Env, fs: seq<FuncId>): set<CallSite>
    decreases |fs|
  {
    if fs == [] then {} else ModuleSites(env, fs[..|fs| - 1]) + BodySites(env.decl(fs[|fs| - 1]).body)
  }

  /** What holds of a FinalState for the sites `sites` against the callees
      `callees`: each site is a caller of each of its callees, and has its
      callees by type. */
  ghost predicate Recorded(env: Env, addressTaken: set<FuncId>, callees: map<CallId, set<FuncId>>, s: FinalState, sites: set<CallSite>) {
    forall cs | cs in sites ::
      && (forall cf | cf in Lookup(callees, cs.id) :: cs.id in Lookup(s.callers, cf))
      && CalleesByType(env, addressTaken, cs) <= Lookup(s.calleeByType, cs.id)
  }

  /** Finalization keeps the callee sets and only grows callers and callees by type. */
  ghost predicate FinalGrows(s: FinalState, r: FinalState) {
    && (forall id :: Lookup(r.callees, id) == Lookup(s.callees, id))
    && Le(s.callers, r.callers)
    && Le(s.calleeByType, r.calleeByType)
  }

  lemma FinalizeInstrGrows(env: Env, addressTaken: set<FuncId>, s: FinalState, i: Instr)
    ensures FinalGrows(s, FinalizeInstr(env, addressTaken, s, i))
  {
    if Finalized(i) {
      var r := FinalizeInstr(env, addressTaken, s, i);
      FinalizeCallersGrow(s.callers, Add(s.callees, i.site.id, {})[i.site.id], i.site.id);
      assert r.callers == Spread(s.callers, Add(s.callees, i.site.id, {})[i.site.id], i.site.id);
      AddLe(s.calleeByType, i.site.id, CalleesByType(env, addressTaken, i.site));
      assert r.calleeByType == Add(s.calleeByType, i.site.id, CalleesByType(env, addressTaken, i.site));
      AddKeepsLookups(s.callees, i.site.id);
    } else {
      FinalGrowsRefl(s);
    }
  }

  lemma FinalizeCallersGrow(callers: map<FuncId, set<CallId>>, fs: set<FuncId>, id: CallId)
    ensures Le(callers, Spread(callers, fs, id))
  {
    forall f | f in callers ensures f in Spread(callers, fs, id) && callers[f] <= Spread(callers, fs, id)[f] {
      SpreadLookup(callers, fs, id, f);
    }
  }

  /** `Ctx->Callees[CI]` only creates an empty entry. */
  lemma AddKeepsLookups(callees: map<CallId, set<FuncId>>, id: CallId)
    ensures forall c :: Lookup(Add(callees, id, {}), c) == Lookup(callees, c)
  {}

  lemma FinalizeInstrRecords(env: Env, addressTaken: set<FuncId>, s: FinalState, i: Instr)
    requires Finalized(i)
    ensures Recorded(env, addressTaken, s.callees, FinalizeInstr(env, addressTaken, s, i), {i.site})
  {
    var cs := i.site;
    var fs := Add(s.callees, cs.id, {})[cs.id];
    var callers := Spread(s.callers, fs, cs.id);
    var byType := Add(s.calleeByType, cs.id, CalleesByType(env, addressTaken, cs));
    assert FinalizeInstr(env, addressTaken, s, i) == FinalState(Add(s.callees, cs.id, {}), callers, byType);
    forall cf | cf in Lookup(s.callees, cs.id) ensures cs.id in Lookup(callers, cf) {
      SpreadLookup(s.callers, fs, cs.id, cf);
    }
    assert CalleesByType(env, addressTaken, cs) <= Lookup(byType, cs.id);
  }

  lemma RecordedMono(env: Env, addressTaken: set<FuncId>, callees: map<CallId, set<FuncId>>,
                     s: FinalState, r: FinalState, sites: set<CallSite>)
    requires Recorded(env, addressTaken, callees, s, sites)
    requires Le(s.callers, r.callers) && Le(s.calleeByType, r.calleeByType)
    ensures Recorded(env, addressTaken, callees, r, sites)
  {
    forall cs, cf | cs in sites && cf in Lookup(callees, cs.id) ensures cs.id in Lookup(r.callers, cf) {
      LeLookup(s.callers, r.callers, cf);
    }
    forall cs | cs in sites ensures CalleesByType(env, addressTaken, cs) <= Lookup(r.calleeByType, cs.id) {
      LeLookup(s.calleeByType, r.calleeByType, cs.id);
    }
  }

  lemma FinalGrowsTrans(s: FinalState, b: FinalState, r: FinalState)
    requires FinalGrows(s, b) && FinalGrows(b, r)
    ensures FinalGrows(s, r)
  {
    LeTrans(s.callers, b.callers, r.callers);
    LeTrans(s.calleeByType, b.calleeByType, r.calleeByType);
  }

  /** After one function, every site it visits is a caller of each of its
      callees; the callee sets are unchanged and the rest only grows. */
  lemma {:induction false} FinalizeBodyProps(env: Env, addressTaken: set<FuncId>, s: FinalState, body: seq<Instr>)
    ensures FinalGrows(s, FinalizeBody(env, addressTaken, s, body))
    ensures Recorded(env, addressTaken, s.callees, FinalizeBody(env, addressTaken, s, body), BodySites(body))
    decreases |body|
  {
    if body == [] {
      assert BodySites(body) == {};
      FinalGrowsRefl(s);
    } else {
      var init := body[..|body| - 1];
      var i := body[|body| - 1];
      FinalizeBodyProps(env, addressTaken, s, init);
      var b := FinalizeBody(env, addressTaken, s, init);
      var r := FinalizeBody(env, addressTaken, s, body);
      FinalizeInstrGrows(env, addressTaken, b, i);
      if Finalized(i) {
        FinalizeInstrRecords(env, addressTaken, b, i);
      }
      FinalGrowsTrans(s, b, r);
      RecordedMono(env, addressTaken, s.callees, b, r, BodySites(init));
      RecordedCallees(env, addressTaken, b.callees, s.callees, r, if Finalized(i) then {i.site} else {});
      BodySitesStep(body);
      RecordedUnion(env, addressTaken, s.callees, r, BodySites(init), if Finalized(i) then {i.site} else {});
    }
  }

  lemma FinalGrowsRefl(s: FinalState)
    ensures FinalGrows(s, s)
  {
    LeRefl(s.callers);
    LeRefl(s.calleeByType);
  }

  lemma BodySitesStep(body: seq<Instr>)
    requires body != []
    ensures BodySites(body) == BodySites(body[..|body| - 1])
                               + (if Finalized(body[|body| - 1]) then {body[|body| - 1].site} else {})
  {
    var init := body[..|body| - 1];
    forall cs | cs in BodySites(body)
      ensures cs in BodySites(init) + (if Finalized(body[|body| - 1]) then {body[|body| - 1].site} else {})
    {
      var j :| 0 <= j < |body| && Finalized(body[j]) && body[j].site == cs;
      if j < |init| {
        assert init[j] == body[j];
      }
    }
    forall cs | cs in BodySites(init) ensures cs in BodySites(body) {
      var j :| 0 <= j < |init| && Finalized(init[j]) && init[j].site == cs;
      assert body[j] == init[j];
    }
  }

  lemma RecordedCallees(env: Env, addressTaken: set<FuncId>, c1: map<CallId, set<FuncId>>, c2: map<CallId, set<FuncId>>,
                        r: FinalState, sites: set<CallSite>)
    requires forall id :: Lookup(c1, id) == Lookup(c2, id)
    requires Recorded(env, addressTaken, c1, r, sites)
    ensures Recorded(env, addressTaken, c2, r, sites)
  {
    forall cs | cs in sites ensures Lookup(c1, cs.id) == Lookup(c2, cs.id) {}
  }

  lemma RecordedUnion(env: Env, addressTaken: set<FuncId>, callees: map<CallId, set<FuncId>>, r: FinalState,
                      a: set<CallSite>, b: set<CallSite>)
    requires Recorded(env, addressTaken, callees, r, a)
    requires Recorded(env, addressTaken, callees, r, b)
    ensures Recorded(env, addressTaken, callees, r, a + b)
  {}

  /** After doFinalization over the module's functions, every visited call
      site is recorded as a caller of each of its callees (`CF in Callees[CI]`
      implies `CI in Callers[CF]`), has its callees by type, and nothing
      was removed. */
  lemma {:induction false} FinalizeFuncsProps(env: Env, addressTaken: set<FuncId>, s: FinalState, fs: seq<FuncId>)
    ensures FinalGrows(s, FinalizeFuncs(env, addressTaken, s, fs))
    ensures Recorded(env, addressTaken, s.callees, FinalizeFuncs(env, addressTaken, s, fs), ModuleSites(env, fs))
    decreases |fs|
  {
    if fs == [] {
      FinalGrowsRefl(s);
    } else {
      var init := fs[..|fs| - 1];
      var body := env.decl(fs[|fs| - 1]).body;
      FinalizeFuncsProps(env, addressTaken, s, init);
      var b := FinalizeFuncs(env, addressTaken, s, init);
      var r := FinalizeFuncs(env, addressTaken, s, fs);
      FinalizeBodyProps(env, addressTaken, b, body);
      FinalGrowsTrans(s, b, r);
      RecordedMono(env, addressTaken, s.callees, b, r, ModuleSites(env, init));
      RecordedCallees(env, addressTaken, b.callees, s.callees, r, BodySites(body));
      RecordedUnion(env, addressTaken, s.callees, r, ModuleSites(env, init), BodySites(body));
    }
  }

  /** `Ctx->Callers[CF].insert(CI)` for each callee `CF` of the site `id`. */
  method RecordCaller(callers: map<FuncId, set<CallId>>, fs: set<FuncId>, id: CallId)
    returns (r: map<FuncId, set<CallId>>)
    ensures r == Spread(callers, fs, id)
  {
    r := callers;
    var rest := fs;
    ghost var done: set<FuncId> := {};
    assert Spread(callers, {}, id) == callers;
    while rest != {}
      invariant done !! rest && done + rest == fs
      invariant r == Spread(callers, done, id)
    {
      var f := First(rest);
      SpreadAdd(callers, done, f, id);
      r := Add(r, f, {id});
      done := done + {f};
      rest := rest - {f};
    }
  }

  // ---------------------------------------------------------------- the loops of doInitialization

  /** The argument loop of doInitialization over one function's formals. */
  method CollectArgs(structInfo: (Ty, ModuleId) -> Option<StructId>, m: ModuleId, formals: seq<Operand>,
                     argS: StructNodes) returns (r: StructNodes)
    ensures r == ArgsInto(structInfo, m, formals, argS)
  {
    r := argS;
    var k := 0;
    while k < |formals|
      invariant 0 <= k <= |formals|
      invariant r == ArgsInto(structInfo, m, formals[..k], argS)
    {
      var a := formals[k];
      assert formals[..k + 1][..k] == formals[..k];
      if a.ty.Pointer? && IsStruct(a.ty.pointee) {
        var si := structInfo(a.ty.pointee, m);
        if si.Some? {
          r := Add(r, si.value, {a.node});
        }
      }
      k := k + 1;
    }
    assert formals[..k] == formals;
  }

  /** One function of the functions loop of doInitialization. */
  method InitFunction(structInfo: (Ty, ModuleId) -> Option<StructId>, decl: FuncId -> FuncDecl,
                      funcDefs: map<Guid, FuncId>, m: ModuleId, f: FuncId, callers: map<FuncId, set<CallId>>,
                      taken: set<FuncId>, g: Graph, entries: set<FuncId>, rets: StructNodes, argS: StructNodes)
    returns (callers': map<FuncId, set<CallId>>, taken': set<FuncId>, g': Graph, entries': set<FuncId>,
             rets': StructNodes, argS': StructNodes)
    ensures callers' == Add(callers, FuncDef(decl, funcDefs, f), decl(f).directCallers)
    ensures taken' == taken + (if decl(f).addressTaken then {f} else {})
    ensures g' == if decl(f).addressTaken then Insert(g, decl(f).valueNode, {decl(f).objNode}) else g
    ensures entries' == entries + (if IsEntryName(decl(f).name) then {f} else {})
    ensures rets' == Record(rets, PointeeStruct(structInfo, m, decl(f).retTy), decl(f).valueNode)
    ensures argS' == ArgsInto(structInfo, m, decl(f).formals, argS)
  {
    var d := decl(f);
    callers', taken', g', entries', rets' := Add(callers, FuncDef(decl, funcDefs, f), d.directCallers), taken, g, entries, rets;
    if d.addressTaken {
      taken' := taken + {f};
      g' := Insert(g, d.valueNode, {d.objNode});
    }
    if IsEntryName(d.name) {
      entries' := entries + {f};
    }
    if d.retTy.Pointer? && IsStruct(d.retTy.pointee) {
      var si := structInfo(d.retTy.pointee, m);
      if si.Some? {
        rets' := Add(rets, si.value, {d.valueNode});
      }
    }
    argS' := CollectArgs(structInfo, m, d.formals, argS);
  }

  /** The functions loop of doInitialization, computing the new callers,
      address-taken functions, graph, entry points and struct nodes. */
  method CollectFunctions(structInfo: (Ty, ModuleId) -> Option<StructId>, decl: FuncId -> FuncDecl,
                          funcDefs: map<Guid, FuncId>, m: Module, callers0: map<FuncId, set<CallId>>,
                          g0: Graph, rets0: StructNodes, argS0: StructNodes)
    returns (callers: map<FuncId, set<CallId>>, taken: set<FuncId>, g: Graph, entries: set<FuncId>,
             rets: StructNodes, argS: StructNodes)
    ensures callers == CallersInto(decl, funcDefs, m.funcs, callers0)
    ensures taken == TakenIn(decl, m.funcs)
    ensures g == EdgesInto(decl, m.funcs, g0)
    ensures entries == EntriesIn(decl, m.funcs)
    ensures rets == RetsInto(structInfo, decl, m.id, m.funcs, rets0)
    ensures argS == FormalsInto(structInfo, decl, m.id, m.funcs, argS0)
  {
    callers, taken, g, entries, rets, argS := callers0, {}, g0, {}, rets0, argS0;
    var k := 0;
    while k < |m.funcs|
      invariant 0 <= k <= |m.funcs|
      invariant callers == CallersInto(decl, funcDefs, m.funcs[..k], callers0)
      invariant taken == TakenIn(decl, m.funcs[..k])
      invariant g == EdgesInto(decl, m.funcs[..k], g0)
      invariant entries == EntriesIn(decl, m.funcs[..k])
      invariant rets == RetsInto(structInfo, decl, m.id, m.funcs[..k], rets0)
      invariant argS == FormalsInto(structInfo, decl, m.id, m.funcs[..k], argS0)
    {
      var f := m.funcs[k];
      IntoStep(structInfo, decl, funcDefs, m.id, m.funcs, k, callers0, g0, rets0, argS0);
      callers, taken, g, entries, rets, argS :=
        InitFunction(structInfo, decl, funcDefs, m.id, f, callers, taken, g, entries, rets, argS);
      k := k + 1;
    }
    assert m.funcs[..k] == m.funcs;
  }

  // ---------------------------------------------------------------- sweeps over the module list
  // doInitialization and doFinalization over the modules `ms` in load order.

  function GlobalsOver(structInfo: (Ty, ModuleId) -> Option<StructId>, ext: set<Guid>, ms: seq<Module>,
                       gs: StructNodes): StructNodes
    decreases |ms|
  {
    if ms == [] then gs
    else
      var m := ms[|ms| - 1];
      GlobalsInto(structInfo, ext, m.id, m.globals, GlobalsOver(structInfo, ext, ms[..|ms| - 1], gs))
  }

  function CallersOver(decl: FuncId -> FuncDecl, funcDefs: map<Guid, FuncId>, ms: seq<Module>,
                       callers: map<FuncId, set<CallId>>): map<FuncId, set<CallId>>
    decreases |ms|
  {
    if ms == [] then callers
    else CallersInto(decl, funcDefs, ms[|ms| - 1].funcs, CallersOver(decl, funcDefs, ms[..|ms| - 1], callers))
  }

  function TakenOver(decl: FuncId -> FuncDecl, ms: seq<Module>): set<FuncId>
    decreases |ms|
  {
    if ms == [] then {} else TakenOver(decl, ms[..|ms| - 1]) + TakenIn(decl, ms[|ms| - 1].funcs)
  }

  function EdgesOver(decl: FuncId -> FuncDecl, ms: seq<Module>, g: Graph): Graph
    decreases |ms|
  {
    if ms == [] then g else EdgesInto(decl, ms[|ms| - 1].funcs, EdgesOver(decl, ms[..|ms| - 1], g))
  }

  function EntriesOver(decl: FuncId -> FuncDecl, ms: seq<Module>): set<FuncId>
    decreases |ms|
  {
    if ms == [] then {} else EntriesOver(decl, ms[..|ms| - 1]) + EntriesIn(decl, ms[|ms| - 1].funcs)
  }

  function RetsOver(structInfo: (Ty, ModuleId) -> Option<StructId>, decl: FuncId -> FuncDecl, ms: seq<Module>,
                    retS: StructNodes): StructNodes
    decreases |ms|
  {
    if ms == [] then retS
    else
      var m := ms[|ms| - 1];
      RetsInto(structInfo, decl, m.id, m.funcs, RetsOver(structInfo, decl, ms[..|ms| - 1], retS))
  }

  function FormalsOver(structInfo: (Ty, ModuleId) -> Option<StructId>, decl: FuncId -> FuncDecl, ms: seq<Module>,
                       argS: StructNodes): StructNodes
    decreases |ms|
  {
    if ms == [] then argS
    else
      var m := ms[|ms| - 1];
      FormalsInto(structInfo, decl, m.id, m.funcs, FormalsOver(structInfo, decl, ms[..|ms| - 1], argS))
  }

  function FinalizeOver(env: Env, addressTaken: set<FuncId>, s: FinalState, ms: seq<Module>): FinalState
    decreases |ms|
  {
    if ms == [] then s else FinalizeFuncs(env, addressTaken, FinalizeOver(env, addressTaken, s, ms[..|ms| - 1]), ms[|ms| - 1].funcs)
  }

  /** The call sites doFinalization visits in the modules `ms`. */
  function SitesOver(env: Env, ms: seq<Module>): set<CallSite>
    decreases |ms|
  {
    if ms == [] then {} else SitesOver(env, ms[..|ms| - 1]) + ModuleSites(env, ms[|ms| - 1].funcs)
  }

  /** After a finalization sweep over the modules, every visited call site is
      a caller of each of its callees and has its callees by type; the callee
      sets are unchanged and nothing was removed. */
  lemma {:induction false} FinalizeOverProps(env: Env, addressTaken: set<FuncId>, s: FinalState, ms: seq<Module>)
    ensures FinalGrows(s, FinalizeOver(env, addressTaken, s, ms))
    ensures Recorded(env, addressTaken, s.callees, FinalizeOver(env, addressTaken, s, ms), SitesOver(env, ms))
    decreases |ms|
  {
    if ms == [] {
      FinalGrowsRefl(s);
    } else {
      var init := ms[..|ms| - 1];
      var fs := ms[|ms| - 1].funcs;
      FinalizeOverProps(env, addressTaken, s, init);
      var b := FinalizeOver(env, addressTaken, s, init);
      var r := FinalizeOver(env, addressTaken, s, ms);
      FinalizeFuncsProps(env, addressTaken, b, fs);
      FinalGrowsTrans(s, b, r);
      RecordedMono(env, addressTaken, s.callees, b, r, SitesOver(env, init));
      RecordedCallees(env, addressTaken, b.callees, s.callees, r, ModuleSites(env, fs));
      RecordedUnion(env, addressTaken, s.callees, r, SitesOver(env, init), ModuleSites(env, fs));
    }
  }

  /** The module-list folds over one more module. */
  lemma OverStep(structInfo: (Ty, ModuleId) -> Option<StructId>, decl: FuncId -> FuncDecl,
                 funcDefs: map<Guid, FuncId>, ext: set<Guid>, ms: seq<Module>, k: nat, gs: StructNodes,
                 callers: map<FuncId, set<CallId>>, g: Graph, retS: StructNodes, argS: StructNodes)
    requires k < |ms|
    ensures var m := ms[k];
            && GlobalsOver(structInfo, ext, ms[..k + 1], gs)
               == GlobalsInto(structInfo, ext, m.id, m.globals, GlobalsOver(structInfo, ext, ms[..k], gs))
            && CallersOver(decl, funcDefs, ms[..k + 1], callers)
               == CallersInto(decl, funcDefs, m.funcs, CallersOver(decl, funcDefs, ms[..k], callers))
            && TakenOver(decl, ms[..k + 1]) == TakenOver(decl, ms[..k]) + TakenIn(decl, m.funcs)
            && EdgesOver(decl, ms[..k + 1], g) == EdgesInto(decl, m.funcs, EdgesOver(decl, ms[..k], g))
            && EntriesOver(decl, ms[..k + 1]) == EntriesOver(decl, ms[..k]) + EntriesIn(decl, m.funcs)
            && RetsOver(structInfo, decl, ms[..k + 1], retS)
               == RetsInto(structInfo, decl, m.id, m.funcs, RetsOver(structInfo, decl, ms[..k], retS))
            && FormalsOver(structInfo, decl, ms[..k + 1], argS)
               == FormalsInto(structInfo, decl, m.id, m.funcs, FormalsOver(structInfo, decl, ms[..k], argS))
  {
    assert ms[..k + 1][..k] == ms[..k];
  }
}
