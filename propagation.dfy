/** The propagation loop of IterativeModulePass::run for the call-graph pass:
    doModulePass over every module, as a function of the pass state, and why
    the `Iteration < 2` guard admits exactly one working sweep. */
module Propagation {
  import opened Pts
  import opened Ir
  import opened Transfer
  import opened Shortcuts

  /** What doModulePass reads and never writes: the collaborators, the
      defined functions, the address-taken functions and the struct nodes
      collected by doInitialization. */
  datatype Inputs = Inputs(
    env: Env,
    funcDefs: map<Guid, FuncId>,
    addressTaken: set<FuncId>,
    retS: map<StructId, set<NodeIndex>>,
    argS: map<StructId, set<NodeIndex>>,
    globS: map<StructId, set<NodeIndex>>)

  /** The pass after some doModulePass calls: typeShortcuts, the transfer
      state, and how many calls reported a change. */
  datatype PassOut = PassOut(shortcuts: map<StructId, NodeIndex>, state: PassState, changed: nat)

  /** The shortcut step of doModulePass: shortcuts are created when there are none. */
  ghost function ShortcutStep(inp: Inputs, shortcuts: map<StructId, NodeIndex>, s: PassState): ShortcutOut {
    var out := ShortcutOut(shortcuts, s.graph, s.shortcutNodes);
    if shortcuts == map[] then CreateShortcuts(inp.env.shortcutObject, inp.retS, inp.argS, inp.globS, out) else out
  }

  /** doModulePass(M) at sweep count `iteration`; `changed` is 1 when it returns true. */
  ghost function ModulePass(inp: Inputs, iteration: nat, shortcuts: map<StructId, NodeIndex>, s: PassState, m: Module): PassOut
    requires ModuleSupported(inp.env, m)
  {
    var sc := ShortcutStep(inp, shortcuts, s);
    var s1 := s.(graph := sc.graph, shortcutNodes := sc.shortcutNodes);
    if iteration < 2 then
      var o := SweepFrom(Setting(inp.env, m.id, sc.shortcuts, inp.funcDefs, inp.addressTaken), s1, m.funcs, 0, false);
      PassOut(sc.shortcuts, o.state, if o.changed then 1 else 0)
    else PassOut(sc.shortcuts, s1, 0)
  }

  predicate AllSupported(env: Env, ms: seq<Module>) {
    forall k | 0 <= k < |ms| :: ModuleSupported(env, ms[k])
  }

  /** One sweep of the propagation loop over the modules `ms`, in order. */
  ghost function Round(inp: Inputs, iteration: nat, shortcuts: map<StructId, NodeIndex>, s: PassState, ms: seq<Module>): PassOut
    requires AllSupported(inp.env, ms)
    decreases |ms|
  {
    if ms == [] then PassOut(shortcuts, s, 0)
    else
      var p := Round(inp, iteration, shortcuts, s, ms[..|ms| - 1]);
      var q := ModulePass(inp, iteration, p.shortcuts, p.state, ms[|ms| - 1]);
      PassOut(q.shortcuts, q.state, p.changed + q.changed)
  }

  /** The shortcuts need no more work: some exist, or no type qualifies. */
  ghost predicate Settled(inp: Inputs, shortcuts: map<StructId, NodeIndex>) {
    shortcuts != map[] || forall st :: !IsCandidate(inp.retS, inp.argS, inp.globS, st)
  }

  /** After any doModulePass the shortcuts are settled. */
  lemma ModulePassSettles(inp: Inputs, iteration: nat, shortcuts: map<StructId, NodeIndex>, s: PassState, m: Module)
    requires ModuleSupported(inp.env, m)
    ensures Settled(inp, ModulePass(inp, iteration, shortcuts, s, m).shortcuts)
  {
    var r := ModulePass(inp, iteration, shortcuts, s, m).shortcuts;
    if shortcuts == map[] {
      var out := ShortcutOut(shortcuts, s.graph, s.shortcutNodes);
      forall st ensures r == map[] ==> !IsCandidate(inp.retS, inp.argS, inp.globS, st) {
        CreateShortcutsMap(inp.env.shortcutObject, inp.retS, inp.argS, inp.globS, out, st);
      }
    }
  }

  /** Once the shortcuts are settled, a doModulePass at `iteration >= 2`
      changes nothing and reports no change. */
  lemma LateModulePassIdle(inp: Inputs, iteration: nat, shortcuts: map<StructId, NodeIndex>, s: PassState, m: Module)
    requires ModuleSupported(inp.env, m)
    requires iteration >= 2 && Settled(inp, shortcuts)
    ensures ModulePass(inp, iteration, shortcuts, s, m) == PassOut(shortcuts, s, 0)
  {
    if shortcuts == map[] {
      NoCandidateNoChange(inp.env.shortcutObject, inp.retS, inp.argS, inp.globS, ShortcutOut(shortcuts, s.graph, s.shortcutNodes));
    }
  }

  /** A sweep counts at most one change per module. */
  lemma {:induction false} RoundCount(inp: Inputs, iteration: nat, shortcuts: map<StructId, NodeIndex>, s: PassState, ms: seq<Module>)
    requires AllSupported(inp.env, ms)
    ensures Round(inp, iteration, shortcuts, s, ms).changed <= |ms|
    decreases |ms|
  {
    if ms != [] {
      RoundCount(inp, iteration, shortcuts, s, ms[..|ms| - 1]);
    }
  }

  /** A sweep over at least one module leaves the shortcuts settled, and a
      sweep from settled shortcuts keeps them settled. */
  lemma {:induction false} RoundSettles(inp: Inputs, iteration: nat, shortcuts: map<StructId, NodeIndex>, s: PassState, ms: seq<Module>)
    requires AllSupported(inp.env, ms)
    requires ms != [] || Settled(inp, shortcuts)
    ensures Settled(inp, Round(inp, iteration, shortcuts, s, ms).shortcuts)
    decreases |ms|
  {
    if ms != [] {
      var p := Round(inp, iteration, shortcuts, s, ms[..|ms| - 1]);
      ModulePassSettles(inp, iteration, p.shortcuts, p.state, ms[|ms| - 1]);
    }
  }

  /** Once the shortcuts are settled, a sweep at `iteration >= 2` is idle: the
      pass state and the shortcuts stay as they are and no module reports a
      change. */
  lemma {:induction false} LateRoundIdle(inp: Inputs, iteration: nat, shortcuts: map<StructId, NodeIndex>, s: PassState, ms: seq<Module>)
    requires AllSupported(inp.env, ms)
    requires iteration >= 2 && Settled(inp, shortcuts)
    ensures Round(inp, iteration, shortcuts, s, ms) == PassOut(shortcuts, s, 0)
    decreases |ms|
  {
    if ms != [] {
      LateRoundIdle(inp, iteration, shortcuts, s, ms[..|ms| - 1]);
      LateModulePassIdle(inp, iteration, shortcuts, s, ms[|ms| - 1]);
    }
  }

  /** The sweep over one more module. */
  lemma RoundStep(inp: Inputs, iteration: nat, shortcuts: map<StructId, NodeIndex>, s: PassState, ms: seq<Module>, k: nat)
    requires AllSupported(inp.env, ms) && k < |ms|
    ensures AllSupported(inp.env, ms[..k]) && AllSupported(inp.env, ms[..k + 1])
    ensures var p := Round(inp, iteration, shortcuts, s, ms[..k]);
            var q := ModulePass(inp, iteration, p.shortcuts, p.state, ms[k]);
            Round(inp, iteration, shortcuts, s, ms[..k + 1]) == PassOut(q.shortcuts, q.state, p.changed + q.changed)
  {
    assert ms[..k + 1][..k] == ms[..k];
  }
}
