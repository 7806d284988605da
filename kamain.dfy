/** The driver around the passes: loading the modules, filing their
    externally-linked globals and functions by GUID (doBasicInitialization),
    separating definitions from declarations, and running the call-graph pass. */
module KAMain {
  import opened Ir
  import opened Global
  import opened CallGraph
  import opened Propagation
  import opened Bookkeeping

  // ---------------------------------------------------------------- doBasicInitialization, per global and function

  /** doBasicInitialization files an externally-linked global in Gobjs when it
      is a definition (`definitions`) and in ExtGobjs when it is a declaration;
      an internal global is filed nowhere. */
  predicate FilesGlobal(gv: GlobalVar, definitions: bool) {
    gv.externalLinkage && gv.declaration != definitions
  }

  /** A function with a body: neither a declaration nor empty. */
  predicate IsDefinition(d: FuncDecl) {
    !d.declaration && !d.empty
  }

  /** An externally-linked function goes to Funcs when it is a definition and
      to ExtFuncs otherwise; an internal function is filed nowhere. */
  predicate FilesFunc(d: FuncDecl, definitions: bool) {
    d.externalLinkage && IsDefinition(d) == definitions
  }

  /** `acc` after `acc[GUID] = &GV` for every global of `gs`, in order, that
      FilesGlobal selects. */
  function FileGlobals(acc: map<Guid, GlobalId>, gs: seq<GlobalVar>, definitions: bool): map<Guid, GlobalId>
    decreases |gs|
  {
    if gs == [] then acc
    else
      var gv := gs[|gs| - 1];
      var r := FileGlobals(acc, gs[..|gs| - 1], definitions);
      if FilesGlobal(gv, definitions) then r[gv.guid := gv.id] else r
  }

  /** `acc` after `acc[GUID] = &F` for every function of `fs`, in order, that
      FilesFunc selects. */
  function FileFuncs(decl: FuncId -> FuncDecl, acc: map<Guid, FuncId>, fs: seq<FuncId>, definitions: bool): map<Guid, FuncId>
    decreases |fs|
  {
    if fs == [] then acc
    else
      var f := fs[|fs| - 1];
      var r := FileFuncs(decl, acc, fs[..|fs| - 1], definitions);
      if FilesFunc(decl(f), definitions) then r[decl(f).guid := f] else r
  }

  /** Global `gs[k]` is filed under GUID `g`. */
  predicate GlobalFiledAt(gs: seq<GlobalVar>, definitions: bool, g: Guid, k: int) {
    0 <= k < |gs| && FilesGlobal(gs[k], definitions) && gs[k].guid == g
  }

  /** Global `gs[k]` is the last one filed under GUID `g`. */
  predicate GlobalLastAt(gs: seq<GlobalVar>, definitions: bool, g: Guid, k: int) {
    GlobalFiledAt(gs, definitions, g, k) && forall j | k < j < |gs| :: !GlobalFiledAt(gs, definitions, g, j)
  }

  predicate FuncFiledAt(decl: FuncId -> FuncDecl, fs: seq<FuncId>, definitions: bool, g: Guid, k: int) {
    0 <= k < |fs| && FilesFunc(decl(fs[k]), definitions) && decl(fs[k]).guid == g
  }

  predicate FuncLastAt(decl: FuncId -> FuncDecl, fs: seq<FuncId>, definitions: bool, g: Guid, k: int) {
    FuncFiledAt(decl, fs, definitions, g, k) && forall j | k < j < |fs| :: !FuncFiledAt(decl, fs, definitions, g, j)
  }

  /** Filing the globals: the GUID of a filed global maps to the last global
      filed under it, and every other GUID keeps what `acc` had (present or
      absent). */
  lemma {:induction false} FileGlobalsSpec(acc: map<Guid, GlobalId>, gs: seq<GlobalVar>, definitions: bool)
    ensures var r := FileGlobals(acc, gs, definitions);
            && (forall g, k | GlobalLastAt(gs, definitions, g, k) :: g in r && r[g] == gs[k].id)
            && (forall g | forall k | 0 <= k < |gs| :: !GlobalFiledAt(gs, definitions, g, k) ::
                  (g in r <==> g in acc) && (g in acc ==> r[g] == acc[g]))
    decreases |gs|
  {
    if gs != [] {
      var n := |gs| - 1;
      var init := gs[..n];
      FileGlobalsSpec(acc, init, definitions);
      var r0 := FileGlobals(acc, init, definitions);
      var r := FileGlobals(acc, gs, definitions);
      forall g, k | GlobalLastAt(gs, definitions, g, k) ensures g in r && r[g] == gs[k].id {
        if k < n {
          assert !GlobalFiledAt(gs, definitions, g, n);
          assert GlobalLastAt(init, definitions, g, k) by {
            forall j | k < j < |init| ensures !GlobalFiledAt(init, definitions, g, j) {
              assert !GlobalFiledAt(gs, definitions, g, j);
            }
          }
        }
      }
      forall g | forall k | 0 <= k < |gs| :: !GlobalFiledAt(gs, definitions, g, k)
        ensures (g in r <==> g in acc) && (g in acc ==> r[g] == acc[g])
      {
        assert !GlobalFiledAt(gs, definitions, g, n);
        forall k | 0 <= k < |init| ensures !GlobalFiledAt(init, definitions, g, k) {
          assert !GlobalFiledAt(gs, definitions, g, k);
        }
      }
    }
  }

  /** Filing the functions: the GUID of a filed function maps to the last
      function filed under it, and every other GUID keeps what `acc` had. */
  lemma {:induction false} FileFuncsSpec(decl: FuncId -> FuncDecl, acc: map<Guid, FuncId>, fs: seq<FuncId>, definitions: bool)
    ensures var r := FileFuncs(decl, acc, fs, definitions);
            && (forall g, k | FuncLastAt(decl, fs, definitions, g, k) :: g in r && r[g] == fs[k])
            && (forall g | forall k | 0 <= k < |fs| :: !FuncFiledAt(decl, fs, definitions, g, k) ::
                  (g in r <==> g in acc) && (g in acc ==> r[g] == acc[g]))
    decreases |fs|
  {
    if fs != [] {
      var n := |fs| - 1;
      var init := fs[..n];
      FileFuncsSpec(decl, acc, init, definitions);
      var r := FileFuncs(decl, acc, fs, definitions);
      forall g, k | FuncLastAt(decl, fs, definitions, g, k) ensures g in r && r[g] == fs[k] {
        if k < n {
          assert !FuncFiledAt(decl, fs, definitions, g, n);
          assert FuncLastAt(decl, init, definitions, g, k) by {
            forall j | k < j < |init| ensures !FuncFiledAt(decl, init, definitions, g, j) {
              assert !FuncFiledAt(decl, fs, definitions, g, j);
            }
          }
        }
      }
      forall g | forall k | 0 <= k < |fs| :: !FuncFiledAt(decl, fs, definitions, g, k)
        ensures (g in r <==> g in acc) && (g in acc ==> r[g] == acc[g])
      {
        assert !FuncFiledAt(decl, fs, definitions, g, n);
        forall k | 0 <= k < |init| ensures !FuncFiledAt(decl, init, definitions, g, k) {
          assert !FuncFiledAt(decl, fs, definitions, g, k);
        }
      }
    }
  }

  /** What the asserts in doBasicInitialization demand: no two definitions
      share a GUID, and none is in `acc` already. */
  predicate UniqueGlobals(acc: map<Guid, GlobalId>, gs: seq<GlobalVar>) {
    forall i | 0 <= i < |gs| && FilesGlobal(gs[i], true) ::
      gs[i].guid !in acc && forall j | i < j < |gs| && FilesGlobal(gs[j], true) :: gs[j].guid != gs[i].guid
  }

  /** When the definitions are unique, as asserted, every defined global is
      filed under its own GUID. */
  lemma UniqueGlobalsFiled(acc: map<Guid, GlobalId>, gs: seq<GlobalVar>)
    requires UniqueGlobals(acc, gs)
    ensures forall k | 0 <= k < |gs| && FilesGlobal(gs[k], true) ::
              gs[k].guid in FileGlobals(acc, gs, true) && FileGlobals(acc, gs, true)[gs[k].guid] == gs[k].id
  {
    FileGlobalsSpec(acc, gs, true);
    forall k | 0 <= k < |gs| && FilesGlobal(gs[k], true) ensures GlobalLastAt(gs, true, gs[k].guid, k) {
      forall j | k < j < |gs| ensures !GlobalFiledAt(gs, true, gs[k].guid, j) {
        assert !(FilesGlobal(gs[j], true) && gs[j].guid == gs[k].guid);
      }
    }
  }

  // ---------------------------------------------------------------- doBasicInitialization, per module

  /** The four GUID maps of GlobalContext that doBasicInitialization fills. */
  datatype Symbols = Symbols(
    gobjs: map<Guid, GlobalId>,
    extGobjs: map<Guid, GlobalId>,
    funcs: map<Guid, FuncId>,
    extFuncs: map<Guid, FuncId>)

  function SymbolsOf(ctx: GlobalContext): Symbols
    reads ctx`gobjs, ctx`extGobjs, ctx`funcs, ctx`extFuncs
  {
    Symbols(ctx.gobjs, ctx.extGobjs, ctx.funcs, ctx.extFuncs)
  }

  /** doBasicInitialization(M) on the symbol maps `s`. */
  function BasicInit(decl: FuncId -> FuncDecl, s: Symbols, m: Module): Symbols {
    Symbols(FileGlobals(s.gobjs, m.globals, true), FileGlobals(s.extGobjs, m.globals, false),
            FileFuncs(decl, s.funcs, m.funcs, true), FileFuncs(decl, s.extFuncs, m.funcs, false))
  }

  /** doBasicInitialization over the modules `ms`, in load order. */
  function BasicInitOver(decl: FuncId -> FuncDecl, s: Symbols, ms: seq<Module>): Symbols
    decreases |ms|
  {
    if ms == [] then s else BasicInit(decl, BasicInitOver(decl, s, ms[..|ms| - 1]), ms[|ms| - 1])
  }

  /** Filing only adds GUIDs. */
  lemma {:induction false} BasicInitOverGrows(decl: FuncId -> FuncDecl, s: Symbols, ms: seq<Module>)
    ensures var r := BasicInitOver(decl, s, ms);
            && s.gobjs.Keys <= r.gobjs.Keys && s.extGobjs.Keys <= r.extGobjs.Keys
            && s.funcs.Keys <= r.funcs.Keys && s.extFuncs.Keys <= r.extFuncs.Keys
    decreases |ms|
  {
    if ms != [] {
      var m := ms[|ms| - 1];
      var r0 := BasicInitOver(decl, s, ms[..|ms| - 1]);
      BasicInitOverGrows(decl, s, ms[..|ms| - 1]);
      FileGlobalsSpec(r0.gobjs, m.globals, true);
      FileGlobalsSpec(r0.extGobjs, m.globals, false);
      FileFuncsSpec(decl, r0.funcs, m.funcs, true);
      FileFuncsSpec(decl, r0.extFuncs, m.funcs, false);
      FileGlobalsKeys(r0.gobjs, m.globals, true);
      FileGlobalsKeys(r0.extGobjs, m.globals, false);
      FileFuncsKeys(decl, r0.funcs, m.funcs, true);
      FileFuncsKeys(decl, r0.extFuncs, m.funcs, false);
    }
  }

  /** Filing keeps the GUIDs already present and adds those of the filed entries. */
  lemma {:induction false} FileGlobalsKeys(acc: map<Guid, GlobalId>, gs: seq<GlobalVar>, definitions: bool)
    ensures acc.Keys <= FileGlobals(acc, gs, definitions).Keys
    ensures forall k | 0 <= k < |gs| && FilesGlobal(gs[k], definitions) :: gs[k].guid in FileGlobals(acc, gs, definitions)
    decreases |gs|
  {
    if gs != [] {
      FileGlobalsKeys(acc, gs[..|gs| - 1], definitions);
      assert forall k | 0 <= k < |gs| - 1 :: gs[..|gs| - 1][k] == gs[k];
    }
  }

  lemma {:induction false} FileFuncsKeys(decl: FuncId -> FuncDecl, acc: map<Guid, FuncId>, fs: seq<FuncId>, definitions: bool)
    ensures acc.Keys <= FileFuncs(decl, acc, fs, definitions).Keys
    ensures forall k | 0 <= k < |fs| && FilesFunc(decl(fs[k]), definitions) :: decl(fs[k]).guid in FileFuncs(decl, acc, fs, definitions)
    decreases |fs|
  {
    if fs != [] {
      FileFuncsKeys(decl, acc, fs[..|fs| - 1], definitions);
      assert forall k | 0 <= k < |fs| - 1 :: fs[..|fs| - 1][k] == fs[k];
    }
  }

  /** doBasicInitialization(M): the struct analysis of M is the struct
      analyzer's (not part of this model), then every externally-linked global
      and function of M is filed under its GUID. */
  method DoBasicInitialization(ctx: GlobalContext, decl: FuncId -> FuncDecl, m: Module)
    modifies ctx`gobjs, ctx`extGobjs, ctx`funcs, ctx`extFuncs
    ensures SymbolsOf(ctx) == BasicInit(decl, old(SymbolsOf(ctx)), m)
  {
    CollectGlobals(ctx, m.globals);
    CollectFuncs(ctx, decl, m.funcs);
  }

  /** The loop of doBasicInitialization over the globals of a module. */
  method CollectGlobals(ctx: GlobalContext, gs: seq<GlobalVar>)
    modifies ctx`gobjs, ctx`extGobjs
    ensures ctx.gobjs == FileGlobals(old(ctx.gobjs), gs, true)
    ensures ctx.extGobjs == FileGlobals(old(ctx.extGobjs), gs, false)
  {
    for k := 0 to |gs|
      invariant ctx.gobjs == FileGlobals(old(ctx.gobjs), gs[..k], true)
      invariant ctx.extGobjs == FileGlobals(old(ctx.extGobjs), gs[..k], false)
    {
      var gv := gs[k];
      assert gs[..k + 1][..k] == gs[..k];
      if gv.externalLinkage {
        if !gv.declaration {
          ctx.gobjs := ctx.gobjs[gv.guid := gv.id];
        } else {
          ctx.extGobjs := ctx.extGobjs[gv.guid := gv.id];
        }
      }
    }
    assert gs[..|gs|] == gs;
  }

  /** The loop of doBasicInitialization over the functions of a module. */
  method CollectFuncs(ctx: GlobalContext, decl: FuncId -> FuncDecl, fs: seq<FuncId>)
    modifies ctx`funcs, ctx`extFuncs
    ensures ctx.funcs == FileFuncs(decl, old(ctx.funcs), fs, true)
    ensures ctx.extFuncs == FileFuncs(decl, old(ctx.extFuncs), fs, false)
  {
    for k := 0 to |fs|
      invariant ctx.funcs == FileFuncs(decl, old(ctx.funcs), fs[..k], true)
      invariant ctx.extFuncs == FileFuncs(decl, old(ctx.extFuncs), fs[..k], false)
    {
      var f := fs[k];
      var d := decl(f);
      assert fs[..k + 1][..k] == fs[..k];
      if d.externalLinkage {
        if !d.declaration && !d.empty {
          ctx.funcs := ctx.funcs[d.guid := f];
        } else {
          ctx.extFuncs := ctx.extFuncs[d.guid := f];
        }
      }
    }
    assert fs[..|fs|] == fs;
  }

  // ---------------------------------------------------------------- loading

  /** One input file and what parseIRFile made of it; None is a load failure. */
  datatype Input = Input(name: string, parsed: Option<Module>)

  /** The modules that loaded, in input order. */
  function Loaded(inputs: seq<Input>): seq<Module>
    decreases |inputs|
  {
    if inputs == [] then []
    else
      var ms := Loaded(inputs[..|inputs| - 1]);
      var last := inputs[|inputs| - 1];
      if last.parsed.Some? then ms + [last.parsed.value] else ms
  }

  /** ModuleMaps after recording every loaded module's file name. */
  function NamesOver(names: map<ModuleId, string>, inputs: seq<Input>): map<ModuleId, string>
    decreases |inputs|
  {
    if inputs == [] then names
    else
      var r := NamesOver(names, inputs[..|inputs| - 1]);
      var last := inputs[|inputs| - 1];
      if last.parsed.Some? then r[last.parsed.value.id := last.name] else r
  }

  /** A module is loaded exactly when some input parsed to it; load failures
      add nothing, so there are at most as many modules as inputs. */
  lemma {:induction false} LoadedSpec(inputs: seq<Input>)
    ensures |Loaded(inputs)| <= |inputs|
    ensures forall m :: m in Loaded(inputs) <==> exists k | 0 <= k < |inputs| :: inputs[k].parsed == Some(m)
    decreases |inputs|
  {
    if inputs != [] {
      var init := inputs[..|inputs| - 1];
      LoadedSpec(init);
      forall m ensures m in Loaded(inputs) <==> exists k | 0 <= k < |inputs| :: inputs[k].parsed == Some(m) {
        if m in Loaded(init) {
          var k :| 0 <= k < |init| && init[k].parsed == Some(m);
          assert inputs[k] == init[k];
        }
        if k :| 0 <= k < |inputs| && inputs[k].parsed == Some(m) {
          if k < |init| {
            assert init[k] == inputs[k];
          }
        }
      }
    }
  }

  /** Every loaded module is recorded under its own identity with the name of
      the last input that parsed to it; other entries stay. */
  lemma {:induction false} NamesOverSpec(names: map<ModuleId, string>, inputs: seq<Input>)
    ensures var r := NamesOver(names, inputs);
            && names.Keys <= r.Keys
            && forall k | 0 <= k < |inputs| && inputs[k].parsed.Some? :: inputs[k].parsed.value.id in r
    decreases |inputs|
  {
    if inputs != [] {
      NamesOverSpec(names, inputs[..|inputs| - 1]);
      assert forall k | 0 <= k < |inputs| - 1 :: inputs[..|inputs| - 1][k] == inputs[k];
    }
  }

  /** The loading loop of main: a file that fails to load is reported and
      skipped; every other module is appended to Modules, recorded in
      ModuleMaps and passed to doBasicInitialization. */
  method LoadModules(ctx: GlobalContext, decl: FuncId -> FuncDecl, inputs: seq<Input>)
    modifies ctx`modules, ctx`moduleNames, ctx`gobjs, ctx`extGobjs, ctx`funcs, ctx`extFuncs
    ensures ctx.modules == old(ctx.modules) + Loaded(inputs)
    ensures ctx.moduleNames == NamesOver(old(ctx.moduleNames), inputs)
    ensures SymbolsOf(ctx) == BasicInitOver(decl, old(SymbolsOf(ctx)), Loaded(inputs))
  {
    for i := 0 to |inputs|
      invariant ctx.modules == old(ctx.modules) + Loaded(inputs[..i])
      invariant ctx.moduleNames == NamesOver(old(ctx.moduleNames), inputs[..i])
      invariant SymbolsOf(ctx) == BasicInitOver(decl, old(SymbolsOf(ctx)), Loaded(inputs[..i]))
    {
      assert inputs[..i + 1][..i] == inputs[..i];
      var input := inputs[i];
      if input.parsed.None? {
        continue;
      }
      var m := input.parsed.value;
      ghost var ms := Loaded(inputs[..i]);
      assert Loaded(inputs[..i + 1]) == ms + [m];
      assert (ms + [m])[..|ms|] == ms;
      ctx.modules := ctx.modules + [m];
      ctx.moduleNames := ctx.moduleNames[m.id := input.name];
      DoBasicInitialization(ctx, decl, m);
    }
    assert inputs[..|inputs|] == inputs;
  }

  // ---------------------------------------------------------------- definitions versus declarations

  /** The clean-up after loading: a GUID with a definition is erased from the
      declarations. */
  function Partition(s: Symbols): (r: Symbols)
    ensures r.gobjs == s.gobjs && r.funcs == s.funcs
    ensures r.extGobjs.Keys !! r.gobjs.Keys && r.extFuncs.Keys !! r.funcs.Keys
    ensures r.extGobjs.Keys == s.extGobjs.Keys - s.gobjs.Keys
    ensures r.extFuncs.Keys == s.extFuncs.Keys - s.funcs.Keys
    ensures forall g | g in r.extGobjs :: r.extGobjs[g] == s.extGobjs[g]
    ensures forall g | g in r.extFuncs :: r.extFuncs[g] == s.extFuncs[g]
  {
    s.(extGobjs := s.extGobjs - s.gobjs.Keys, extFuncs := s.extFuncs - s.funcs.Keys)
  }

  /** The partition is already clean the second time. */
  lemma PartitionIdempotent(s: Symbols)
    ensures Partition(Partition(s)) == Partition(s)
  {
    var p := Partition(s);
    assert p.extGobjs - p.gobjs.Keys == p.extGobjs;
    assert p.extFuncs - p.funcs.Keys == p.extFuncs;
  }

  /** The two erase loops of main (one per pair of maps). */
  method Cleanup(ctx: GlobalContext)
    modifies ctx`extGobjs, ctx`extFuncs
    ensures SymbolsOf(ctx) == Partition(old(SymbolsOf(ctx)))
  {
    EraseDefinedGlobals(ctx);
    EraseDefinedFuncs(ctx);
  }

  /** `for (auto &[id, gv] : Gobjs) ExtGobjs.erase(id);` */
  method EraseDefinedGlobals(ctx: GlobalContext)
    modifies ctx`extGobjs
    ensures ctx.extGobjs == old(ctx.extGobjs) - ctx.gobjs.Keys
  {
    var todo := ctx.gobjs.Keys;
    while todo != {}
      invariant todo <= ctx.gobjs.Keys
      invariant ctx.extGobjs == old(ctx.extGobjs) - (ctx.gobjs.Keys - todo)
      decreases |todo|
    {
      var id :| id in todo;
      EraseStep(old(ctx.extGobjs), ctx.gobjs.Keys, todo, id);
      ctx.extGobjs := ctx.extGobjs - {id};
      todo := todo - {id};
    }
    assert ctx.gobjs.Keys - todo == ctx.gobjs.Keys;
  }

  /** `for (auto &[id, f] : Funcs) ExtFuncs.erase(id);` */
  method EraseDefinedFuncs(ctx: GlobalContext)
    modifies ctx`extFuncs
    ensures ctx.extFuncs == old(ctx.extFuncs) - ctx.funcs.Keys
  {
    var todo := ctx.funcs.Keys;
    while todo != {}
      invariant todo <= ctx.funcs.Keys
      invariant ctx.extFuncs == old(ctx.extFuncs) - (ctx.funcs.Keys - todo)
      decreases |todo|
    {
      var id :| id in todo;
      EraseStep(old(ctx.extFuncs), ctx.funcs.Keys, todo, id);
      ctx.extFuncs := ctx.extFuncs - {id};
      todo := todo - {id};
    }
    assert ctx.funcs.Keys - todo == ctx.funcs.Keys;
  }

  /** Erasing one more key of `keys` from `ext`. */
  lemma EraseStep<V>(ext: map<Guid, V>, keys: set<Guid>, todo: set<Guid>, id: Guid)
    requires id in todo && todo <= keys
    ensures (ext - (keys - todo)) - {id} == ext - (keys - (todo - {id}))
  {
    assert keys - (todo - {id}) == (keys - todo) + {id};
  }

  // ---------------------------------------------------------------- main

  /** After loading and the clean-up, every externally-linked function of a
      loaded module is filed under its GUID in exactly one of Funcs and
      ExtFuncs, and a definition always finds some definition in Funcs. */
  lemma LoadedFuncsPartitioned(decl: FuncId -> FuncDecl, inputs: seq<Input>)
    ensures var ms := Loaded(inputs);
            var r := Partition(BasicInitOver(decl, Symbols(map[], map[], map[], map[]), ms));
            forall i, k | 0 <= i < |ms| && 0 <= k < |ms[i].funcs| && decl(ms[i].funcs[k]).externalLinkage ::
              var g := decl(ms[i].funcs[k]).guid;
              && (g in r.funcs <==> g !in r.extFuncs)
              && (IsDefinition(decl(ms[i].funcs[k])) ==> g in r.funcs)
  {
    var ms := Loaded(inputs);
    var s0 := Symbols(map[], map[], map[], map[]);
    var s := BasicInitOver(decl, s0, ms);
    forall i, k | 0 <= i < |ms| && 0 <= k < |ms[i].funcs| && decl(ms[i].funcs[k]).externalLinkage
      ensures decl(ms[i].funcs[k]).guid in s.funcs || decl(ms[i].funcs[k]).guid in s.extFuncs
      ensures IsDefinition(decl(ms[i].funcs[k])) ==> decl(ms[i].funcs[k]).guid in s.funcs
    {
      FuncFiledOver(decl, s0, ms, i, k);
    }
  }

  /** A function of the `i`-th module ends up in the map doBasicInitialization
      files it in. */
  lemma FuncFiledOver(decl: FuncId -> FuncDecl, s: Symbols, ms: seq<Module>, i: nat, k: nat)
    requires i < |ms| && k < |ms[i].funcs| && decl(ms[i].funcs[k]).externalLinkage
    ensures var r := BasicInitOver(decl, s, ms);
            var f := decl(ms[i].funcs[k]);
            if IsDefinition(f) then f.guid in r.funcs else f.guid in r.extFuncs
  {
    var upto := ms[..i + 1];
    assert upto[..i] == ms[..i];
    var si := BasicInitOver(decl, s, ms[..i]);
    FileFuncsKeys(decl, si.funcs, ms[i].funcs, true);
    FileFuncsKeys(decl, si.extFuncs, ms[i].funcs, false);
    SuffixGrows(decl, s, ms, i + 1);
  }

  /** Filing the modules after the first `n` only adds GUIDs. */
  lemma {:induction false} SuffixGrows(decl: FuncId -> FuncDecl, s: Symbols, ms: seq<Module>, n: nat)
    requires n <= |ms|
    ensures var a := BasicInitOver(decl, s, ms[..n]);
            var b := BasicInitOver(decl, s, ms);
            a.funcs.Keys <= b.funcs.Keys && a.extFuncs.Keys <= b.extFuncs.Keys
    decreases |ms| - n
  {
    if n < |ms| {
      var a := BasicInitOver(decl, s, ms[..n]);
      var a1 := BasicInitOver(decl, s, ms[..n + 1]);
      assert ms[..n + 1][..n] == ms[..n];
      FileFuncsKeys(decl, a.funcs, ms[n].funcs, true);
      FileFuncsKeys(decl, a.extFuncs, ms[n].funcs, false);
      SuffixGrows(decl, s, ms, n + 1);
    } else {
      assert ms[..n] == ms;
    }
  }

  /** The loading loop of main followed by the clean-up, from an empty context. */
  method LoadAll(ctx: GlobalContext, decl: FuncId -> FuncDecl, inputs: seq<Input>)
    requires ctx.modules == [] && ctx.moduleNames == map[] && SymbolsOf(ctx) == Symbols(map[], map[], map[], map[])
    modifies ctx`modules, ctx`moduleNames, ctx`gobjs, ctx`extGobjs, ctx`funcs, ctx`extFuncs
    ensures ctx.modules == Loaded(inputs) && ctx.moduleNames == NamesOver(map[], inputs)
    ensures SymbolsOf(ctx) == Partition(BasicInitOver(decl, Symbols(map[], map[], map[], map[]), Loaded(inputs)))
  {
    LoadModules(ctx, decl, inputs);
    Cleanup(ctx);
  }

  /** main's workflow after the process setup: load the inputs, separate
      definitions from declarations, and run the call-graph pass on the
      loaded modules. The node factory's population is its own and not part
      of this model. */
  method Analyze(env: Env, inputs: seq<Input>) returns (ctx: GlobalContext, pass: CallGraphPass)
    requires AllSupported(env, Loaded(inputs))
    ensures fresh(ctx) && fresh(pass) && pass.ctx == ctx && pass.env == env
    ensures ctx.modules == Loaded(inputs) && ctx.moduleNames == NamesOver(map[], inputs)
    ensures SymbolsOf(ctx) == Partition(BasicInitOver(env.decl, Symbols(map[], map[], map[], map[]), Loaded(inputs)))
    ensures pass.iteration == 1
  {
    ctx := new GlobalContext();
    LoadAll(ctx, env.decl, inputs);
    pass := new CallGraphPass(env, ctx);
    RunCallGraph(pass);
  }

  /** CGPass.run(GlobalCtx.Modules): one initialization, one propagation and
      one finalization sweep over the context's modules. */
  method RunCallGraph(pass: CallGraphPass)
    requires AllSupported(pass.env, pass.ctx.modules)
    modifies pass, pass.ctx`callers, pass.ctx`addressTaken, pass.ctx`callees
    ensures pass.iteration == 1
    ensures pass.InputsOf() == InitInputs(pass.env, old(pass.ctx.funcs), old(pass.ctx.extGobjs).Keys,
                                          old(pass.ctx.addressTaken), old(pass.retStructs), old(pass.argStructs),
                                          old(pass.globalStructs), pass.ctx.modules)
    ensures var p := Round(pass.InputsOf(), 1, old(pass.shortcuts),
                           InitState(pass.env.decl, old(pass.State()), pass.ctx.modules), pass.ctx.modules);
            && pass.shortcuts == p.shortcuts
            && pass.State().(callees := p.state.callees, calleeByType := p.state.calleeByType) == p.state
            && pass.Final() == FinalizeOver(pass.env, pass.ctx.addressTaken,
                                            FinalState(p.state.callees,
                                                       CallersOver(pass.env.decl, old(pass.ctx.funcs), pass.ctx.modules,
                                                                   old(pass.ctx.callers)),
                                                       p.state.calleeByType), pass.ctx.modules)
  {
    pass.Run(pass.ctx.modules);
  }
}
