/** GlobalContext: the state shared by all passes, and the default hooks of
    IterativeModulePass. */
module Global {
  import opened Ir

  /** An opaque `void*`: null or some address. */
  datatype Ptr = Null | Ptr(addr: nat)

  class GlobalContext {
    /** Pass-specific data, by name. */
    var passData: map<string, Ptr>
    /** Defined external globals (Gobjs) and external declarations (ExtGobjs), by GUID. */
    var gobjs: map<Guid, GlobalId>
    var extGobjs: map<Guid, GlobalId>
    /** Defined external functions (Funcs) and external declarations (ExtFuncs), by GUID. */
    var funcs: map<Guid, FuncId>
    var extFuncs: map<Guid, FuncId>
    var addressTaken: set<FuncId>            // AddressTakenFuncs
    var callees: map<CallId, set<FuncId>>    // Callees
    var callers: map<FuncId, set<CallId>>    // Callers
    /** The loaded modules in load order, with the file each came from. */
    var modules: seq<Module>
    var moduleNames: map<ModuleId, string>

    constructor ()
      ensures passData == map[] && gobjs == map[] && extGobjs == map[]
      ensures funcs == map[] && extFuncs == map[] && addressTaken == {}
      ensures callees == map[] && callers == map[] && modules == [] && moduleNames == map[]
    {
      passData := map[];
      gobjs := map[];
      extGobjs := map[];
      funcs := map[];
      extFuncs := map[];
      addressTaken := {};
      callees := map[];
      callers := map[];
      modules := [];
      moduleNames := map[];
    }

    /** add: registers `data` under a new name; an existing name keeps its data. */
    method Add(name: string, data: Ptr) returns (r: bool)
      modifies this`passData
      ensures r <==> name !in old(passData)
      ensures r ==> passData == old(passData)[name := data]
      ensures !r ==> passData == old(passData)
      ensures Get(name) == (if r then data else old(Get(name)))
      ensures forall n :: n != name ==> Get(n) == old(Get(n))
    {
      if name in passData {
        return false;
      }
      passData := passData[name := data];
      return true;
    }

    /** get: the data registered under `name`, or null. */
    function Get(name: string): (r: Ptr)
      reads this`passData
      ensures name in passData ==> r == passData[name]
      ensures name !in passData ==> r == Null
    {
      if name in passData then passData[name] else Null
    }
  }

  // ---------------------------------------------------------------- default hooks of IterativeModulePass

  /** The default doInitialization asks for another sweep. */
  function DefaultInitialization(m: Module): (r: bool)
    ensures r
  {
    true
  }

  /** The default doFinalization asks for another sweep. */
  function DefaultFinalization(m: Module): (r: bool)
    ensures r
  {
    true
  }

  /** The default doModulePass reports no change. */
  function DefaultModulePass(m: Module): (r: bool)
    ensures !r
  {
    false
  }

  /** Whether a sweep of `hook` over `modules` asks for another one
      (`again |= hook(M)` for every module). */
  function SweepAgain(hook: Module -> bool, modules: seq<Module>): (r: bool)
    ensures r <==> exists k :: 0 <= k < |modules| && hook(modules[k])
    decreases |modules|
  {
    if modules == [] then false
    else
      assert forall k :: 1 <= k < |modules| ==> modules[k] == modules[1..][k - 1];
      hook(modules[0]) || SweepAgain(hook, modules[1..])
  }

  /** With the default hooks an initialization or finalization sweep over any
      module asks for another, so those driver loops settle only when there
      are no modules; a propagation sweep never reports a change. */
  lemma DefaultHooksSweep(modules: seq<Module>)
    ensures SweepAgain(DefaultInitialization, modules) <==> modules != []
    ensures SweepAgain(DefaultFinalization, modules) <==> modules != []
    ensures !SweepAgain(DefaultModulePass, modules)
  {
    if modules != [] {
      assert DefaultInitialization(modules[0]) && DefaultFinalization(modules[0]);
    }
  }
}
