/** The type-shortcut heuristic of doModulePass: a struct type used both as a
    pointer return and as a pointer argument, and the type of no global, gets
    one object node; every value node that returns or takes such a pointer is
    bound to that object and frozen (it joins `typeShortcutsObj`, which the
    Ret, Load and argument-binding transfers then leave alone). */
module Shortcuts {
  import opened Pts
  import opened Ir

  /** What shortcut creation updates: typeShortcuts, funcPtsGraph, typeShortcutsObj. */
  datatype ShortcutOut = ShortcutOut(
    shortcuts: map<StructId, NodeIndex>,
    graph: Graph,
    shortcutNodes: set<NodeIndex>)

  /** `st` returns as a pointer and is taken as a pointer argument, and no
      global has it as its type. */
  predicate IsCandidate(retS: map<StructId, set<NodeIndex>>, argS: map<StructId, set<NodeIndex>>,
                        globS: map<StructId, set<NodeIndex>>, st: StructId) {
    st in retS && st in argS && st !in globS
  }

  /** The value nodes a shortcut for `st` binds: its returns, then its arguments. */
  function BoundBy(retS: map<StructId, set<NodeIndex>>, argS: map<StructId, set<NodeIndex>>,
                   st: StructId): set<NodeIndex> {
    Lookup(retS, st) + Lookup(argS, st)
  }

  /** The candidates among `sts`. */
  ghost function CandidatesIn(retS: map<StructId, set<NodeIndex>>, argS: map<StructId, set<NodeIndex>>,
                              globS: map<StructId, set<NodeIndex>>, sts: set<StructId>): set<StructId> {
    set st | st in sts && IsCandidate(retS, argS, globS, st)
  }

  /** The nodes bound by the shortcuts of `sts`. */
  ghost function NodesOf(retS: map<StructId, set<NodeIndex>>, argS: map<StructId, set<NodeIndex>>,
                         sts: set<StructId>): set<NodeIndex> {
    set st, n | st in sts && n in BoundBy(retS, argS, st) :: n
  }

  /** The shortcut objects node `n` is bound to by the shortcuts of `sts`. */
  ghost function ObjsAt(objOf: StructId -> NodeIndex, retS: map<StructId, set<NodeIndex>>, argS: map<StructId, set<NodeIndex>>,
                        sts: set<StructId>, n: NodeIndex): set<NodeIndex> {
    set st | st in sts && n in BoundBy(retS, argS, st) :: objOf(st)
  }

  /** typeShortcuts after the shortcuts of `sts` are added to `sc`. */
  ghost function MapWith(objOf: StructId -> NodeIndex, sts: set<StructId>, sc: map<StructId, NodeIndex>): map<StructId, NodeIndex> {
    sc + (map st | st in sts :: objOf(st))
  }

  /** funcPtsGraph after the nodes bound by `sts` gain their objects. */
  ghost function GraphWith(objOf: StructId -> NodeIndex, retS: map<StructId, set<NodeIndex>>, argS: map<StructId, set<NodeIndex>>,
                           sts: set<StructId>, g: Graph): Graph {
    map n | n in g.Keys + NodesOf(retS, argS, sts) :: PtsOf(g, n) + ObjsAt(objOf, retS, argS, sts, n)
  }

  /** The outcome of creating the shortcuts of the types `sts`, in any order:
      each type maps to its object, each bound node is frozen and gains the
      objects of the types that bind it. */
  ghost function WithShortcuts(objOf: StructId -> NodeIndex, retS: map<StructId, set<NodeIndex>>, argS: map<StructId, set<NodeIndex>>,
                               sts: set<StructId>, out: ShortcutOut): ShortcutOut {
    ShortcutOut(MapWith(objOf, sts, out.shortcuts),
                GraphWith(objOf, retS, argS, sts, out.graph),
                out.shortcutNodes + NodesOf(retS, argS, sts))
  }

  /** The shortcut loop of doModulePass over retStructs. */
  ghost function CreateShortcuts(objOf: StructId -> NodeIndex, retS: map<StructId, set<NodeIndex>>, argS: map<StructId, set<NodeIndex>>,
                                 globS: map<StructId, set<NodeIndex>>, out: ShortcutOut): ShortcutOut {
    WithShortcuts(objOf, retS, argS, CandidatesIn(retS, argS, globS, retS.Keys), out)
  }

  // ---------------------------------------------------------------- building the outcome one type at a time

  lemma NoNodes(retS: map<StructId, set<NodeIndex>>, argS: map<StructId, set<NodeIndex>>)
    ensures NodesOf(retS, argS, {}) == {}
  {}

  lemma NoObjs(objOf: StructId -> NodeIndex, retS: map<StructId, set<NodeIndex>>, argS: map<StructId, set<NodeIndex>>, n: NodeIndex)
    ensures ObjsAt(objOf, retS, argS, {}, n) == {}
  {}

  lemma NoMapChange(objOf: StructId -> NodeIndex, sc: map<StructId, NodeIndex>)
    ensures MapWith(objOf, {}, sc) == sc
  {}

  lemma NoGraphChange(objOf: StructId -> NodeIndex, retS: map<StructId, set<NodeIndex>>, argS: map<StructId, set<NodeIndex>>, g: Graph)
    ensures GraphWith(objOf, retS, argS, {}, g) == g
  {
    var r := GraphWith(objOf, retS, argS, {}, g);
    NoNodes(retS, argS);
    assert r.Keys == g.Keys;
    forall n | n in r ensures r[n] == g[n] {
      NoObjs(objOf, retS, argS, n);
    }
  }

  lemma WithNoShortcuts(objOf: StructId -> NodeIndex, retS: map<StructId, set<NodeIndex>>, argS: map<StructId, set<NodeIndex>>,
                        out: ShortcutOut)
    ensures WithShortcuts(objOf, retS, argS, {}, out) == out
  {
    NoNodes(retS, argS);
    NoMapChange(objOf, out.shortcuts);
    NoGraphChange(objOf, retS, argS, out.graph);
  }

  lemma NodesOfStep(retS: map<StructId, set<NodeIndex>>, argS: map<StructId, set<NodeIndex>>,
                    sts: set<StructId>, m: StructId)
    ensures NodesOf(retS, argS, sts + {m}) == NodesOf(retS, argS, sts) + BoundBy(retS, argS, m)
  {
    forall n | n in NodesOf(retS, argS, sts + {m})
      ensures n in NodesOf(retS, argS, sts) + BoundBy(retS, argS, m)
    {
      var st :| st in sts + {m} && n in BoundBy(retS, argS, st);
      if st != m {
        assert st in sts;
      }
    }
  }

  lemma ObjsAtStep(objOf: StructId -> NodeIndex, retS: map<StructId, set<NodeIndex>>, argS: map<StructId, set<NodeIndex>>,
                   sts: set<StructId>, m: StructId, n: NodeIndex)
    ensures ObjsAt(objOf, retS, argS, sts + {m}, n)
            == ObjsAt(objOf, retS, argS, sts, n)
               + (if n in BoundBy(retS, argS, m) then {objOf(m)} else {})
  {
    forall o | o in ObjsAt(objOf, retS, argS, sts + {m}, n)
      ensures o in ObjsAt(objOf, retS, argS, sts, n)
                   + (if n in BoundBy(retS, argS, m) then {objOf(m)} else {})
    {
      var st :| st in sts + {m} && n in BoundBy(retS, argS, st) && o == objOf(st);
      if st != m {
        assert st in sts;
      }
    }
  }

  /** `typeShortcuts[stInfo] = obj` for one more type. */
  lemma MapOneMore(objOf: StructId -> NodeIndex, sts: set<StructId>, m: StructId, sc: map<StructId, NodeIndex>)
    ensures MapWith(objOf, sts, sc)[m := objOf(m)] == MapWith(objOf, sts + {m}, sc)
  {}

  /** Spreading one object over two sets of nodes. */
  lemma SpreadTwice(g: Graph, k1: set<NodeIndex>, k2: set<NodeIndex>, obj: NodeIndex, n: NodeIndex)
    ensures PtsOf(Spread(Spread(g, k1, obj), k2, obj), n) == PtsOf(g, n) + (if n in k1 + k2 then {obj} else {})
  {
    SpreadLookup(g, k1, obj, n);
    SpreadLookup(Spread(g, k1, obj), k2, obj, n);
  }

  /** A node no type binds is given no object. */
  lemma ObjsAtOutside(objOf: StructId -> NodeIndex, retS: map<StructId, set<NodeIndex>>,
                      argS: map<StructId, set<NodeIndex>>, sts: set<StructId>, n: NodeIndex)
    ensures ObjsAt(objOf, retS, argS, sts, n) != {} ==> n in NodesOf(retS, argS, sts)
  {
    if ObjsAt(objOf, retS, argS, sts, n) != {} {
      var o :| o in ObjsAt(objOf, retS, argS, sts, n);
      var st :| st in sts && n in BoundBy(retS, argS, st) && o == objOf(st);
    }
  }

  /** Every node's set in the closed form, present or not. */
  lemma GraphWithPts(objOf: StructId -> NodeIndex, retS: map<StructId, set<NodeIndex>>,
                     argS: map<StructId, set<NodeIndex>>, sts: set<StructId>, g: Graph, n: NodeIndex)
    ensures PtsOf(GraphWith(objOf, retS, argS, sts, g), n) == PtsOf(g, n) + ObjsAt(objOf, retS, argS, sts, n)
  {
    forall o | o in ObjsAt(objOf, retS, argS, sts, n) ensures n in NodesOf(retS, argS, sts) {
      var st :| st in sts && n in BoundBy(retS, argS, st) && o == objOf(st);
    }
  }

  lemma GraphOneMorePts(objOf: StructId -> NodeIndex, retS: map<StructId, set<NodeIndex>>, argS: map<StructId, set<NodeIndex>>,
                        sts: set<StructId>, m: StructId, g: Graph, n: NodeIndex)
    ensures PtsOf(Spread(Spread(GraphWith(objOf, retS, argS, sts, g), Lookup(retS, m), objOf(m)),
                         Lookup(argS, m), objOf(m)), n)
            == PtsOf(GraphWith(objOf, retS, argS, sts + {m}, g), n)
  {
    var w := GraphWith(objOf, retS, argS, sts, g);
    SpreadTwice(w, Lookup(retS, m), Lookup(argS, m), objOf(m), n);
    GraphWithPts(objOf, retS, argS, sts, g, n);
    GraphWithPts(objOf, retS, argS, sts + {m}, g, n);
    ObjsAtStep(objOf, retS, argS, sts, m, n);
  }

  lemma GraphOneMoreKeys(objOf: StructId -> NodeIndex, retS: map<StructId, set<NodeIndex>>,
                         argS: map<StructId, set<NodeIndex>>, sts: set<StructId>, m: StructId, g: Graph)
    ensures Spread(Spread(GraphWith(objOf, retS, argS, sts, g), Lookup(retS, m), objOf(m)),
                   Lookup(argS, m), objOf(m)).Keys
            == GraphWith(objOf, retS, argS, sts + {m}, g).Keys
  {
    NodesOfStep(retS, argS, sts, m);
  }

  /** The value and argument nodes of one more type gain its object:
      the two loops `funcPtsGraph[node].insert(obj)`. */
  lemma GraphOneMore(objOf: StructId -> NodeIndex, retS: map<StructId, set<NodeIndex>>, argS: map<StructId, set<NodeIndex>>,
                     sts: set<StructId>, m: StructId, g: Graph)
    ensures Spread(Spread(GraphWith(objOf, retS, argS, sts, g), Lookup(retS, m), objOf(m)),
                   Lookup(argS, m), objOf(m))
            == GraphWith(objOf, retS, argS, sts + {m}, g)
  {
    var a := Spread(Spread(GraphWith(objOf, retS, argS, sts, g), Lookup(retS, m), objOf(m)),
                    Lookup(argS, m), objOf(m));
    var b := GraphWith(objOf, retS, argS, sts + {m}, g);
    GraphOneMoreKeys(objOf, retS, argS, sts, m, g);
    forall n ensures PtsOf(a, n) == PtsOf(b, n) {
      GraphOneMorePts(objOf, retS, argS, sts, m, g, n);
    }
    GraphExt(a, b);
  }

  lemma CandidatesStep(retS: map<StructId, set<NodeIndex>>, argS: map<StructId, set<NodeIndex>>,
                       globS: map<StructId, set<NodeIndex>>, sts: set<StructId>, m: StructId)
    ensures CandidatesIn(retS, argS, globS, sts + {m})
            == CandidatesIn(retS, argS, globS, sts) + (if IsCandidate(retS, argS, globS, m) then {m} else {})
  {}

  // ---------------------------------------------------------------- what creation produces

  /** The shortcuts after creation are the old ones plus one per candidate
      type of retStructs, mapped to that type's object. */
  lemma CreateShortcutsMap(objOf: StructId -> NodeIndex, retS: map<StructId, set<NodeIndex>>, argS: map<StructId, set<NodeIndex>>,
                           globS: map<StructId, set<NodeIndex>>, out: ShortcutOut, st: StructId)
    ensures var r := CreateShortcuts(objOf, retS, argS, globS, out);
      && (st in r.shortcuts <==> st in out.shortcuts || IsCandidate(retS, argS, globS, st))
      && (IsCandidate(retS, argS, globS, st) ==> r.shortcuts[st] == objOf(st))
  {
    var c := CandidatesIn(retS, argS, globS, retS.Keys);
    assert IsCandidate(retS, argS, globS, st) <==> st in c;
  }

  /** Every node bound by a candidate type is frozen and points to that
      type's object. */
  lemma CreateShortcutsBound(objOf: StructId -> NodeIndex, retS: map<StructId, set<NodeIndex>>, argS: map<StructId, set<NodeIndex>>,
                             globS: map<StructId, set<NodeIndex>>, out: ShortcutOut, st: StructId, n: NodeIndex)
    requires IsCandidate(retS, argS, globS, st) && n in BoundBy(retS, argS, st)
    ensures var r := CreateShortcuts(objOf, retS, argS, globS, out);
      n in r.shortcutNodes && objOf(st) in PtsOf(r.graph, n)
  {
    var c := CandidatesIn(retS, argS, globS, retS.Keys);
    assert st in c;
    assert n in NodesOf(retS, argS, c);
    assert objOf(st) in ObjsAt(objOf, retS, argS, c, n);
    GraphWithPts(objOf, retS, argS, c, out.graph, n);
  }

  /** Creation only adds frozen nodes and points-to facts. */
  lemma CreateShortcutsGrow(objOf: StructId -> NodeIndex, retS: map<StructId, set<NodeIndex>>, argS: map<StructId, set<NodeIndex>>,
                            globS: map<StructId, set<NodeIndex>>, out: ShortcutOut)
    ensures var r := CreateShortcuts(objOf, retS, argS, globS, out);
      out.shortcutNodes <= r.shortcutNodes && Le(out.graph, r.graph)
  {
    var c := CandidatesIn(retS, argS, globS, retS.Keys);
    forall n ensures PtsOf(out.graph, n) <= PtsOf(GraphWith(objOf, retS, argS, c, out.graph), n) {
      GraphWithPts(objOf, retS, argS, c, out.graph, n);
    }
  }

  /** A node creation leaves unfrozen keeps its entry and its points-to set. */
  lemma CreateShortcutsOutside(objOf: StructId -> NodeIndex, retS: map<StructId, set<NodeIndex>>, argS: map<StructId, set<NodeIndex>>,
                               globS: map<StructId, set<NodeIndex>>, out: ShortcutOut, n: NodeIndex)
    requires n !in CreateShortcuts(objOf, retS, argS, globS, out).shortcutNodes
    ensures var r := CreateShortcuts(objOf, retS, argS, globS, out);
      (n in r.graph <==> n in out.graph) && PtsOf(r.graph, n) == PtsOf(out.graph, n)
  {
    var c := CandidatesIn(retS, argS, globS, retS.Keys);
    GraphWithPts(objOf, retS, argS, c, out.graph, n);
    ObjsAtOutside(objOf, retS, argS, c, n);
  }

  /** Without a candidate type, creation changes nothing, which is why
      doModulePass may retry it whenever typeShortcuts is still empty. */
  lemma NoCandidateNoChange(objOf: StructId -> NodeIndex, retS: map<StructId, set<NodeIndex>>, argS: map<StructId, set<NodeIndex>>,
                            globS: map<StructId, set<NodeIndex>>, out: ShortcutOut)
    requires forall st :: !IsCandidate(retS, argS, globS, st)
    ensures CreateShortcuts(objOf, retS, argS, globS, out) == out
  {
    assert CandidatesIn(retS, argS, globS, retS.Keys) == {};
    WithNoShortcuts(objOf, retS, argS, out);
  }

  // ---------------------------------------------------------------- the loops of doModulePass

  /** `funcPtsGraph[node].insert(obj); typeShortcutsObj.insert(node)` for
      every node of `nodes`, in ascending order. */
  method SpreadInto(g: Graph, frozen: set<NodeIndex>, nodes: set<NodeIndex>, obj: NodeIndex)
    returns (g': Graph, frozen': set<NodeIndex>)
    ensures g' == Spread(g, nodes, obj)
    ensures frozen' == frozen + nodes
  {
    g', frozen' := g, frozen;
    var rest := nodes;
    ghost var done: set<NodeIndex> := {};
    assert Spread(g, {}, obj) == g;
    while rest != {}
      invariant done !! rest && done + rest == nodes
      invariant g' == Spread(g, done, obj)
      invariant frozen' == frozen + done
    {
      var n := First(rest);
      SpreadAdd(g, done, n, obj);
      g' := Add(g', n, {obj});
      frozen' := frozen' + {n};
      done := done + {n};
      rest := rest - {n};
    }
  }

  /** One candidate type `st`: its shortcut `obj`, and its return and
      argument nodes pointing to `obj`, frozen. */
  method AddCandidate(retS: map<StructId, set<NodeIndex>>, argS: map<StructId, set<NodeIndex>>, st: StructId, obj: NodeIndex,
                      sc: map<StructId, NodeIndex>, g: Graph, frozen: set<NodeIndex>)
    returns (sc': map<StructId, NodeIndex>, g': Graph, frozen': set<NodeIndex>)
    ensures sc' == sc[st := obj]
    ensures g' == Spread(Spread(g, Lookup(retS, st), obj), Lookup(argS, st), obj)
    ensures frozen' == frozen + Lookup(retS, st) + Lookup(argS, st)
  {
    sc' := sc[st := obj];
    g', frozen' := SpreadInto(g, frozen, Lookup(retS, st), obj);
    g', frozen' := SpreadInto(g', frozen', Lookup(argS, st), obj);
  }

  lemma FrozenOneMore(retS: map<StructId, set<NodeIndex>>, argS: map<StructId, set<NodeIndex>>,
                      frozen: set<NodeIndex>, sts: set<StructId>, m: StructId)
    ensures frozen + NodesOf(retS, argS, sts) + Lookup(retS, m) + Lookup(argS, m)
            == frozen + NodesOf(retS, argS, sts + {m})
  {
    NodesOfStep(retS, argS, sts, m);
  }

  /** The shortcut heuristic: every struct type in retStructs that is also in
      argStructs and not in globalStructs gets its object `objOf(st)`, and
      the return and argument nodes of that type point to it and are frozen. */
  method BuildShortcuts(objOf: StructId -> NodeIndex, retS: map<StructId, set<NodeIndex>>,
                        argS: map<StructId, set<NodeIndex>>, globS: map<StructId, set<NodeIndex>>,
                        out: ShortcutOut)
    returns (r: ShortcutOut)
    ensures r == CreateShortcuts(objOf, retS, argS, globS, out)
  {
    var sc, g, frozen := out.shortcuts, out.graph, out.shortcutNodes;
    var rest := retS.Keys;
    ghost var seen: set<StructId> := {};
    ghost var c: set<StructId> := {};
    NoMapChange(objOf, sc);
    NoGraphChange(objOf, retS, argS, g);
    NoNodes(retS, argS);
    while rest != {}
      invariant seen !! rest && seen + rest == retS.Keys
      invariant c == CandidatesIn(retS, argS, globS, seen)
      invariant sc == MapWith(objOf, c, out.shortcuts)
      invariant g == GraphWith(objOf, retS, argS, c, out.graph)
      invariant frozen == out.shortcutNodes + NodesOf(retS, argS, c)
    {
      // the result does not depend on the order retStructs is walked in
      var st :| st in rest;
      CandidatesStep(retS, argS, globS, seen, st);
      if st in argS && st !in globS {
        MapOneMore(objOf, c, st, out.shortcuts);
        GraphOneMore(objOf, retS, argS, c, st, out.graph);
        FrozenOneMore(retS, argS, out.shortcutNodes, c, st);
        sc, g, frozen := AddCandidate(retS, argS, st, objOf(st), sc, g, frozen);
        c := c + {st};
      }
      seen := seen + {st};
      rest := rest - {st};
    }
    assert seen == retS.Keys;
    r := ShortcutOut(sc, g, frozen);
  }
}
