/** What the transfer functions of module Transfer guarantee: the graph only
    grows, the reported flag is exactly whether it grew (Load excepted),
    only the destination nodes change, and each destination receives what
    the instruction propagates. */
module TransferProps {
  import opened Types
  import opened Pts
  import opened Ir
  import opened Transfer

  /** The formal nodes a non-variadic call may bind. */
  function FormalNodes(formals: seq<Operand>, shortcutNodes: set<NodeIndex>): set<NodeIndex> {
    set k | 0 <= k < |formals| && formals[k].node !in shortcutNodes :: formals[k].node
  }

  /** A fold that inserted into the graph: what every transfer establishes. */
  ghost predicate Extends(g: Graph, o: GraphOut, changed: bool, dst: set<NodeIndex>) {
    && Le(g, o.graph)
    && o.changed == (changed || Grew(g, o.graph))
    && SameOutside(g, o.graph, dst)
  }

  /** One insertion followed by the rest of a fold. */
  lemma InsertThen(g: Graph, n: NodeIndex, s: set<NodeIndex>, o: GraphOut, changed: bool,
                   dst: set<NodeIndex>)
    requires n in dst
    requires Extends(Insert(g, n, s), o, changed || Adds(g, n, s), dst)
    ensures Extends(g, o, changed, dst)
  {
    var g1 := Insert(g, n, s);
    InsertLe(g, n, s);
    InsertGrew(g, n, s);
    LeTrans(g, g1, o.graph);
    GrewCompose(g, g1, o.graph);
    SameOutsideWiden(g, g1, {n}, dst);
    SameOutsideTrans(g, g1, o.graph, dst);
  }

  lemma ExtendsRefl(g: Graph, changed: bool, dst: set<NodeIndex>)
    ensures Extends(g, GraphOut(g, changed), changed, dst)
  {
    LeRefl(g);
    NoGrowthSamePts(g, g);
  }

  // ---------------------------------------------------------------- handleCall

  /** Argument binding: each bound formal becomes a superset of its actual. */
  lemma {:induction false} BindArgsProps(g: Graph, sn: set<NodeIndex>, actuals: seq<Operand>,
                                         formals: seq<Operand>, i: nat, changed: bool)
    requires |actuals| == |formals| && i <= |actuals|
    ensures Extends(g, BindArgs(g, sn, actuals, formals, i, changed), changed, FormalNodes(formals, sn))
    ensures forall k | i <= k < |actuals| && actuals[k].node in g && formals[k].node !in sn ::
              g[actuals[k].node] <= PtsOf(BindArgs(g, sn, actuals, formals, i, changed).graph, formals[k].node)
    decreases |actuals| - i
  {
    var o := BindArgs(g, sn, actuals, formals, i, changed);
    if i == |actuals| {
      ExtendsRefl(g, changed, FormalNodes(formals, sn));
    } else {
      var a := actuals[i].node;
      var f := formals[i].node;
      if a in g && f !in sn {
        var g1 := Insert(g, f, g[a]);
        BindArgsProps(g1, sn, actuals, formals, i + 1, changed || Adds(g, f, g[a]));
        assert f in FormalNodes(formals, sn);
        InsertThen(g, f, g[a], o, changed, FormalNodes(formals, sn));
        InsertLe(g, f, g[a]);
        forall k | i <= k < |actuals| && actuals[k].node in g && formals[k].node !in sn
          ensures g[actuals[k].node] <= PtsOf(o.graph, formals[k].node)
        {
          if k == i {
            LePts(g1, o.graph, f);
          } else {
            LePts(g, g1, actuals[k].node);
            LePts(g1, o.graph, formals[k].node);
          }
        }
      } else {
        BindArgsProps(g, sn, actuals, formals, i + 1, changed);
      }
    }
  }

  /** The returned objects the walk visits, in order: after a replacement the
      walk resumes above the new allocation. */
  function ReturnVisited(env: Env, d: FuncDecl, cs: CallSite, elems: seq<NodeIndex>): seq<NodeIndex>
    decreases |elems|
  {
    if elems == [] then [] else [elems[0]] + ReturnVisited(env, d, cs, ReturnNext(env, d, cs, elems))
  }

  /** The objects the call's node receives for the returned objects `elems`. */
  function ReturnTargets(env: Env, d: FuncDecl, cs: CallSite, elems: seq<NodeIndex>): set<NodeIndex>
    decreases |elems|
  {
    if elems == [] then {}
    else {ReturnTarget(env, d, cs, elems[0])} + ReturnTargets(env, d, cs, ReturnNext(env, d, cs, elems))
  }

  lemma {:induction false} ReturnTargetsHas(env: Env, d: FuncDecl, cs: CallSite, elems: seq<NodeIndex>, p: NodeIndex)
    requires p in ReturnVisited(env, d, cs, elems)
    ensures ReturnTarget(env, d, cs, p) in ReturnTargets(env, d, cs, elems)
    decreases |elems|
  {
    var rest := ReturnNext(env, d, cs, elems);
    assert ReturnVisited(env, d, cs, elems) == [elems[0]] + ReturnVisited(env, d, cs, rest);
    if elems[0] != p {
      ReturnTargetsHas(env, d, cs, rest, p);
    }
  }

  /** The walk visits only returned objects. */
  lemma {:induction false} ReturnVisitedWithin(env: Env, d: FuncDecl, cs: CallSite, elems: seq<NodeIndex>)
    ensures forall p | p in ReturnVisited(env, d, cs, elems) :: p in elems
    decreases |elems|
  {
    if elems != [] {
      var rest := ReturnNext(env, d, cs, elems);
      ReturnVisitedWithin(env, d, cs, rest);
      assert ReturnVisited(env, d, cs, elems) == [elems[0]] + ReturnVisited(env, d, cs, rest);
    }
  }

  /** No returned object below `p` is replaced by an allocation. */
  ghost predicate NoneReplacedBelow(env: Env, d: FuncDecl, elems: seq<NodeIndex>, p: NodeIndex) {
    forall q | q in elems && q < p :: !Reallocates(env, d, q)
  }

  lemma NoneReplacedBelowCons(env: Env, d: FuncDecl, e: NodeIndex, t: seq<NodeIndex>, p: NodeIndex)
    ensures NoneReplacedBelow(env, d, [e] + t, p) <==>
              (e < p ==> !Reallocates(env, d, e)) && NoneReplacedBelow(env, d, t, p)
  {
    assert forall q :: q in [e] + t <==> q == e || q in t;
  }

  /** Over an ascending walk, a returned object is visited exactly when no
      smaller one is replaced, or it lies above the new allocation. */
  lemma {:induction false} ReturnVisitedMembers(env: Env, d: FuncDecl, cs: CallSite, elems: seq<NodeIndex>)
    requires Increasing(elems)
    ensures forall p: NodeIndex :: p in ReturnVisited(env, d, cs, elems) <==>
              p in elems && (NoneReplacedBelow(env, d, elems, p) || env.allocatorObject(cs.id) < p)
    decreases |elems|
  {
    if elems != [] {
      var e := elems[0];
      var a := env.allocatorObject(cs.id);
      var rest := ReturnNext(env, d, cs, elems);
      var vr := ReturnVisited(env, d, cs, rest);
      var vs := ReturnVisited(env, d, cs, elems);
      assert vs == [e] + vr;
      IncreasingTail(elems);
      if Reallocates(env, d, e) {
        AboveIncreasing(elems[1..], a);
      }
      ReturnVisitedMembers(env, d, cs, rest);
      ReturnVisitedWithin(env, d, cs, rest);
      assert elems == [e] + elems[1..];
      forall p: NodeIndex ensures p in vs <==> p in elems && (NoneReplacedBelow(env, d, elems, p) || a < p) {
        NoneReplacedBelowCons(env, d, e, elems[1..], p);
        assert p in elems <==> p == e || p in elems[1..];
        assert p in vs <==> p == e || p in vr;
        if p == e {
          assert NoneReplacedBelow(env, d, elems[1..], p);
        } else if p < e {
          assert p !in vr;
          assert p !in elems[1..];
        } else if Reallocates(env, d, e) {
          assert !NoneReplacedBelow(env, d, elems, p);
          assert p in rest <==> p in elems[1..] && p > a;
        } else {
          assert rest == elems[1..];
        }
      }
    }
  }

  /** Nothing is replaced for a callee whose name does not contain "alloc":
      the walk visits every returned object. */
  lemma {:induction false} ReturnVisitedAll(env: Env, d: FuncDecl, cs: CallSite, elems: seq<NodeIndex>)
    requires !Contains(d.name, "alloc")
    ensures ReturnVisited(env, d, cs, elems) == elems
    decreases |elems|
  {
    if elems != [] {
      ReturnVisitedAll(env, d, cs, elems[1..]);
    }
  }

  /** Return binding adds exactly the return targets to the call's node. */
  lemma {:induction false} BindReturnProps(env: Env, d: FuncDecl, cs: CallSite, g: Graph,
                                           elems: seq<NodeIndex>, changed: bool)
    ensures Extends(g, BindReturn(env, d, cs, g, elems, changed), changed, {cs.result})
    ensures PtsOf(BindReturn(env, d, cs, g, elems, changed).graph, cs.result)
            == PtsOf(g, cs.result) + ReturnTargets(env, d, cs, elems)
    decreases |elems|
  {
    var o := BindReturn(env, d, cs, g, elems, changed);
    if elems == [] {
      ExtendsRefl(g, changed, {cs.result});
    } else {
      var t := ReturnTarget(env, d, cs, elems[0]);
      BindReturnProps(env, d, cs, Insert(g, cs.result, {t}), ReturnNext(env, d, cs, elems),
                      changed || Adds(g, cs.result, {t}));
      InsertThen(g, cs.result, {t}, o, changed, {cs.result});
    }
  }

  /** handleCall: the graph only grows, only the formals and the call's node
      change, and the result is exactly whether anything grew. */
  lemma HandleCallProps(env: Env, sn: set<NodeIndex>, g: Graph, cs: CallSite, cf: FuncId)
    ensures Extends(g, HandleCall(env, sn, g, cs, cf), false,
                    FormalNodes(env.decl(cf).formals, sn) + {cs.result})
  {
    var d := env.decl(cf);
    var dst := FormalNodes(d.formals, sn) + {cs.result};
    var h := HandleCall(env, sn, g, cs, cf);
    if d.intrinsic || d.empty || (!d.varArg && |cs.args| != |d.formals|) {
      ExtendsRefl(g, false, dst);
    } else {
      var bound := if d.varArg then GraphOut(g, false) else BindArgs(g, sn, cs.args, d.formals, 0, false);
      if d.varArg {
        ExtendsRefl(g, false, dst);
      } else {
        BindArgsProps(g, sn, cs.args, d.formals, 0, false);
        SameOutsideWiden(g, bound.graph, FormalNodes(d.formals, sn), dst);
      }
      if !(d.retTy.Void? || d.retNode !in bound.graph) {
        BindReturnProps(env, d, cs, bound.graph, Sorted(bound.graph[d.retNode]), bound.changed);
        SameOutsideWiden(bound.graph, h.graph, {cs.result}, dst);
        SameOutsideTrans(g, bound.graph, h.graph, dst);
        LeTrans(g, bound.graph, h.graph);
        GrewCompose(g, bound.graph, h.graph);
      }
    }
  }

  /** handleCall does nothing for an intrinsic or bodiless callee or a
      non-variadic callee called with the wrong number of arguments. */
  lemma HandleCallRejects(env: Env, sn: set<NodeIndex>, g: Graph, cs: CallSite, cf: FuncId)
    requires env.decl(cf).intrinsic || env.decl(cf).empty
             || (!env.decl(cf).varArg && |cs.args| != |env.decl(cf).formals|)
    ensures HandleCall(env, sn, g, cs, cf) == GraphOut(g, false)
  {}

  /** A variadic callee binds no argument: only the call's node can change. */
  lemma HandleCallVarArg(env: Env, sn: set<NodeIndex>, g: Graph, cs: CallSite, cf: FuncId)
    requires env.decl(cf).varArg
    ensures SameOutside(g, HandleCall(env, sn, g, cs, cf).graph, {cs.result})
  {
    var d := env.decl(cf);
    if !(d.intrinsic || d.empty || d.retTy.Void? || d.retNode !in g) {
      BindReturnProps(env, d, cs, g, Sorted(g[d.retNode]), false);
    }
  }

  /** A matched non-variadic callee: each formal outside the shortcut nodes
      covers its actual; the call's node covers the target of every returned
      object the walk visits, which is every returned object as it is when the
      callee's name does not contain "alloc". */
  lemma HandleCallBinds(env: Env, sn: set<NodeIndex>, g: Graph, cs: CallSite, cf: FuncId)
    requires !env.decl(cf).intrinsic && !env.decl(cf).empty
    requires !env.decl(cf).varArg && |cs.args| == |env.decl(cf).formals|
    ensures forall k | 0 <= k < |cs.args| && cs.args[k].node in g && env.decl(cf).formals[k].node !in sn ::
              g[cs.args[k].node] <= PtsOf(HandleCall(env, sn, g, cs, cf).graph, env.decl(cf).formals[k].node)
    ensures var b := BindArgs(g, sn, cs.args, env.decl(cf).formals, 0, false).graph;
            !env.decl(cf).retTy.Void? && env.decl(cf).retNode in b ==>
              forall p | p in ReturnVisited(env, env.decl(cf), cs, Sorted(b[env.decl(cf).retNode])) ::
                ReturnTarget(env, env.decl(cf), cs, p) in PtsOf(HandleCall(env, sn, g, cs, cf).graph, cs.result)
    ensures !env.decl(cf).retTy.Void? && env.decl(cf).retNode in g && !Contains(env.decl(cf).name, "alloc") ==>
              g[env.decl(cf).retNode] <= PtsOf(HandleCall(env, sn, g, cs, cf).graph, cs.result)
  {
    var d := env.decl(cf);
    var bound := BindArgs(g, sn, cs.args, d.formals, 0, false);
    var h := HandleCall(env, sn, g, cs, cf);
    BindArgsProps(g, sn, cs.args, d.formals, 0, false);
    if !d.retTy.Void? && d.retNode in bound.graph {
      var elems := Sorted(bound.graph[d.retNode]);
      BindReturnProps(env, d, cs, bound.graph, elems, bound.changed);
      SortedContents(bound.graph[d.retNode]);
      forall k | 0 <= k < |cs.args| && cs.args[k].node in g && d.formals[k].node !in sn
        ensures g[cs.args[k].node] <= PtsOf(h.graph, d.formals[k].node)
      {
        LePts(bound.graph, h.graph, d.formals[k].node);
      }
      forall p | p in ReturnVisited(env, d, cs, elems)
        ensures ReturnTarget(env, d, cs, p) in PtsOf(h.graph, cs.result)
      {
        ReturnTargetsHas(env, d, cs, elems, p);
      }
      if d.retNode in g && !Contains(d.name, "alloc") {
        ReturnVisitedAll(env, d, cs, elems);
        forall p | p in g[d.retNode] ensures p in PtsOf(h.graph, cs.result) {
          LePts(g, bound.graph, d.retNode);
          assert ReturnTarget(env, d, cs, p) == p;
        }
      }
    }
  }

  // ---------------------------------------------------------------- Ret

  /** Ret: the function's return node gains the returned value's set, unless
      it is a shortcut node or there is nothing to return. */
  lemma RetStepProps(sn: set<NodeIndex>, g: Graph, f: FuncDecl, rv: Option<NodeIndex>)
    ensures Extends(g, RetStep(sn, g, f, rv), false, {f.retNode})
    ensures rv.Some? && f.retNode !in sn && rv.value in g ==>
              PtsOf(RetStep(sn, g, f, rv).graph, f.retNode) == PtsOf(g, f.retNode) + g[rv.value]
    ensures rv.None? || f.retNode in sn ==> RetStep(sn, g, f, rv) == GraphOut(g, false)
  {
    if rv.None? || f.retNode in sn || rv.value !in g {
      ExtendsRefl(g, false, {f.retNode});
    } else {
      ExtendsRefl(Insert(g, f.retNode, g[rv.value]), Adds(g, f.retNode, g[rv.value]), {f.retNode});
      InsertThen(g, f.retNode, g[rv.value], RetStep(sn, g, f, rv), false, {f.retNode});
    }
  }

  // ---------------------------------------------------------------- Store

  /** The non-special nodes of `elems`. */
  function StoreTargets(env: Env, elems: seq<NodeIndex>): set<NodeIndex> {
    set k | 0 <= k < |elems| && !env.isSpecial(elems[k]) :: elems[k]
  }

  lemma {:induction false} StoreToProps(env: Env, g: Graph, value: NodeIndex, elems: seq<NodeIndex>,
                                        changed: bool)
    ensures Extends(g, StoreTo(env, g, value, elems, changed), changed, StoreTargets(env, elems))
    ensures forall k | 0 <= k < |elems| && !env.isSpecial(elems[k]) ::
              PtsOf(g, value) <= PtsOf(StoreTo(env, g, value, elems, changed).graph, elems[k])
    decreases |elems|
  {
    var o := StoreTo(env, g, value, elems, changed);
    var dst := StoreTargets(env, elems);
    if elems == [] {
      ExtendsRefl(g, changed, dst);
    } else {
      var rest := StoreTargets(env, elems[1..]);
      assert rest <= dst by {
        forall x | x in rest ensures x in dst {
          var k :| 0 <= k < |elems[1..]| && !env.isSpecial(elems[1..][k]) && x == elems[1..][k];
          assert x == elems[k + 1];
        }
      }
      if env.isSpecial(elems[0]) {
        StoreToProps(env, g, value, elems[1..], changed);
        SameOutsideWiden(g, o.graph, rest, dst);
        forall k | 0 <= k < |elems| && !env.isSpecial(elems[k])
          ensures PtsOf(g, value) <= PtsOf(o.graph, elems[k])
        {
          assert elems[k] == elems[1..][k - 1];
        }
      } else {
        var s := PtsOf(g, value);
        var g1 := Insert(g, elems[0], s);
        StoreToProps(env, g1, value, elems[1..], changed || Adds(g, elems[0], s));
        SameOutsideWiden(g1, o.graph, rest, dst);
        assert elems[0] in dst;
        InsertThen(g, elems[0], s, o, changed, dst);
        InsertLe(g, elems[0], s);
        forall k | 0 <= k < |elems| && !env.isSpecial(elems[k])
          ensures PtsOf(g, value) <= PtsOf(o.graph, elems[k])
        {
          LePts(g, g1, value);
          if k == 0 {
            LePts(g1, o.graph, elems[0]);
          } else {
            assert elems[k] == elems[1..][k - 1];
          }
        }
      }
    }
  }

  /** Store: a non-pointer value stores nothing; otherwise every non-special
      object the destination points to covers the value's set. */
  lemma StoreStepProps(env: Env, g: Graph, value: Operand, ptr: NodeIndex)
    ensures !value.ty.Pointer? ==> StoreStep(env, g, value, ptr) == GraphOut(g, false)
    ensures Le(g, StoreStep(env, g, value, ptr).graph)
    ensures StoreStep(env, g, value, ptr).changed == Grew(g, StoreStep(env, g, value, ptr).graph)
    ensures value.ty.Pointer? && value.node in g && ptr in g ==>
              && SameOutside(g, StoreStep(env, g, value, ptr).graph, g[ptr])
              && forall p | p in g[ptr] && !env.isSpecial(p) :: g[value.node] <= PtsOf(StoreStep(env, g, value, ptr).graph, p)
  {
    if !value.ty.Pointer? || value.node !in g || ptr !in g {
      ExtendsRefl(g, false, {});
    } else {
      var elems := Sorted(g[ptr]);
      var o := StoreStep(env, g, value, ptr);
      StoreToProps(env, g, value.node, elems, false);
      SortedContents(g[ptr]);
      assert StoreTargets(env, elems) <= g[ptr];
      SameOutsideWiden(g, o.graph, StoreTargets(env, elems), g[ptr]);
      forall p | p in g[ptr] && !env.isSpecial(p)
        ensures g[value.node] <= PtsOf(o.graph, p)
      {
        var k :| 0 <= k < |elems| && elems[k] == p;
      }
    }
  }

  // ---------------------------------------------------------------- BitCast, PHI, Select

  /** The union of the sets of the sources present in the graph. */
  function UnionOf(g: Graph, srcs: seq<NodeIndex>): set<NodeIndex>
    decreases |srcs|
  {
    if srcs == [] then {} else PtsOf(g, srcs[0]) + UnionOf(g, srcs[1..])
  }

  /** A copy leaves the destination a superset of every source; when the
      destination is not itself a source it gains exactly their union. */
  lemma {:induction false} CopyFromProps(g: Graph, dst: NodeIndex, srcs: seq<NodeIndex>, changed: bool)
    ensures Extends(g, CopyFrom(g, dst, srcs, changed), changed, {dst})
    ensures forall k | 0 <= k < |srcs| :: PtsOf(g, srcs[k]) <= PtsOf(CopyFrom(g, dst, srcs, changed).graph, dst)
    ensures dst !in srcs ==> PtsOf(CopyFrom(g, dst, srcs, changed).graph, dst) == PtsOf(g, dst) + UnionOf(g, srcs)
    decreases |srcs|
  {
    var o := CopyFrom(g, dst, srcs, changed);
    if srcs == [] {
      ExtendsRefl(g, changed, {dst});
    } else {
      var g1 := if srcs[0] in g then Insert(g, dst, g[srcs[0]]) else g;
      if srcs[0] in g {
        CopyFromProps(g1, dst, srcs[1..], changed || Adds(g, dst, g[srcs[0]]));
        InsertThen(g, dst, g[srcs[0]], o, changed, {dst});
        InsertLe(g, dst, g[srcs[0]]);
      } else {
        CopyFromProps(g, dst, srcs[1..], changed);
        LeRefl(g);
      }
      forall k | 0 <= k < |srcs| ensures PtsOf(g, srcs[k]) <= PtsOf(o.graph, dst) {
        if k == 0 {
          LePts(g1, o.graph, dst);
        } else {
          assert srcs[k] == srcs[1..][k - 1];
          LePts(g, g1, srcs[k]);
        }
      }
      if dst !in srcs {
        assert dst !in srcs[1..];
        UnionSame(g, g1, srcs[1..], dst);
      }
    }
  }

  /** Changing only `dst` changes no union of sources other than `dst`. */
  lemma {:induction false} UnionSame(g: Graph, g1: Graph, srcs: seq<NodeIndex>, dst: NodeIndex)
    requires SameOutside(g, g1, {dst}) && dst !in srcs
    ensures UnionOf(g1, srcs) == UnionOf(g, srcs)
    decreases |srcs|
  {
    if srcs != [] {
      assert dst !in srcs[1..];
      UnionSame(g, g1, srcs[1..], dst);
    }
  }

  /** Select never reads its condition: only operands 1.. are copied. */
  lemma SelectSkipsCondition(g: Graph, r: NodeIndex, c: NodeIndex, rest: seq<NodeIndex>)
    ensures CopyFrom(g, r, SelectSources([c] + rest), false) == CopyFrom(g, r, rest, false)
  {
    assert ([c] + rest)[1..] == rest;
  }

  // ---------------------------------------------------------------- Load

  /** The walk ends on the null object. */
  predicate EndsInNull(env: Env, elems: seq<NodeIndex>) {
    |elems| > 0 && elems[|elems| - 1] == env.nullObject
  }

  /** The normal load: the result covers the set of every pointee except a
      null object met last; that one is inserted itself, unreported. */
  lemma {:induction false} LoadFromProps(env: Env, g: Graph, result: NodeIndex, elems: seq<NodeIndex>,
                                         changed: bool)
    ensures Le(g, LoadFrom(env, g, result, elems, changed).graph)
    ensures SameOutside(g, LoadFrom(env, g, result, elems, changed).graph, {result})
    ensures LoadFrom(env, g, result, elems, changed).changed ==> changed || Grew(g, LoadFrom(env, g, result, elems, changed).graph)
    ensures !EndsInNull(env, elems) ==> Extends(g, LoadFrom(env, g, result, elems, changed), changed, {result})
    ensures EndsInNull(env, elems) ==> env.nullObject in PtsOf(LoadFrom(env, g, result, elems, changed).graph, result)
    ensures forall k | 0 <= k < |elems| && elems[k] in g && !(k == |elems| - 1 && elems[k] == env.nullObject) ::
              g[elems[k]] <= PtsOf(LoadFrom(env, g, result, elems, changed).graph, result)
    decreases |elems|
  {
    var o := LoadFrom(env, g, result, elems, changed);
    if elems == [] {
      ExtendsRefl(g, changed, {result});
    } else if elems[0] == env.nullObject && |elems| == 1 {
      InsertLe(g, result, {elems[0]});
    } else {
      var g1 := if elems[0] in g then Insert(g, result, g[elems[0]]) else g;
      var c1 := if elems[0] in g then changed || Adds(g, result, g[elems[0]]) else changed;
      LoadFromProps(env, g1, result, elems[1..], c1);
      assert EndsInNull(env, elems[1..]) == EndsInNull(env, elems);
      if elems[0] in g {
        InsertLe(g, result, g[elems[0]]);
        InsertGrew(g, result, g[elems[0]]);
        if !EndsInNull(env, elems) {
          InsertThen(g, result, g[elems[0]], o, changed, {result});
        }
      } else {
        LeRefl(g);
        NoGrowthSamePts(g, g);
      }
      LeTrans(g, g1, o.graph);
      GrewCompose(g, g1, o.graph);
      SameOutsideTrans(g, g1, o.graph, {result});
      forall k | 0 <= k < |elems| && elems[k] in g && !(k == |elems| - 1 && elems[k] == env.nullObject)
        ensures g[elems[k]] <= PtsOf(o.graph, result)
      {
        if k == 0 {
          LePts(g1, o.graph, result);
        } else {
          assert elems[k] == elems[1..][k - 1];
          LePts(g, g1, elems[k]);
        }
      }
    }
  }

  /** The graph and flag after the shortcut binding of a Load. */
  function ShortcutBound(st: Setting, g: Graph, result: NodeIndex, ty: Ty): GraphOut {
    var sc := LoadShortcut(st, ty);
    if sc.Some? then GraphOut(Insert(g, result, {sc.value}), Adds(g, result, {sc.value})) else GraphOut(g, false)
  }

  lemma ShortcutBoundProps(st: Setting, g: Graph, result: NodeIndex, ty: Ty)
    ensures Extends(g, ShortcutBound(st, g, result, ty), false, {result})
    ensures LoadShortcut(st, ty).Some? ==> LoadShortcut(st, ty).value in PtsOf(ShortcutBound(st, g, result, ty).graph, result)
  {
    var sc := LoadShortcut(st, ty);
    if sc.Some? {
      ExtendsRefl(Insert(g, result, {sc.value}), Adds(g, result, {sc.value}), {result});
      InsertThen(g, result, {sc.value}, ShortcutBound(st, g, result, ty), false, {result});
    } else {
      ExtendsRefl(g, false, {result});
    }
  }

  /** A Load is the shortcut binding followed by the normal load. */
  lemma LoadStepUnfold(st: Setting, s: PassState, result: NodeIndex, ptr: NodeIndex, ty: Ty)
    requires result !in s.shortcutNodes
    ensures var b := ShortcutBound(st, s.graph, result, ty);
      var out := if ptr in b.graph then LoadFrom(st.env, b.graph, result, Sorted(b.graph[ptr]), b.changed) else b;
      LoadStep(st, s, result, ptr, ty) ==
        StepOut(s.(graph := out.graph,
                   shortcutNodes := if LoadShortcut(st, ty).Some? then s.shortcutNodes + {result} else s.shortcutNodes),
                out.changed)
  {}

  /** Load: nothing happens for a result already bound to a shortcut; else
      the shortcut (if the loaded type has one) is bound first, and only the
      result and the shortcut nodes change. */
  lemma LoadStepProps(st: Setting, s: PassState, result: NodeIndex, ptr: NodeIndex, ty: Ty)
    ensures result in s.shortcutNodes ==> LoadStep(st, s, result, ptr, ty) == StepOut(s, false)
    ensures var o := LoadStep(st, s, result, ptr, ty);
      && Le(s.graph, o.state.graph)
      && SameOutside(s.graph, o.state.graph, {result})
      && (o.changed ==> Grew(s.graph, o.state.graph))
      && o.state == s.(graph := o.state.graph, shortcutNodes := o.state.shortcutNodes)
      && s.shortcutNodes <= o.state.shortcutNodes <= s.shortcutNodes + {result}
    ensures var o := LoadStep(st, s, result, ptr, ty);
      result !in s.shortcutNodes && LoadShortcut(st, ty).Some? ==>
        result in o.state.shortcutNodes && LoadShortcut(st, ty).value in PtsOf(o.state.graph, result)
  {
    var o := LoadStep(st, s, result, ptr, ty);
    if result in s.shortcutNodes {
      LeRefl(s.graph);
    } else {
      var b := ShortcutBound(st, s.graph, result, ty);
      ShortcutBoundProps(st, s.graph, result, ty);
      LoadStepUnfold(st, s, result, ptr, ty);
      if ptr in b.graph {
        LoadFromProps(st.env, b.graph, result, Sorted(b.graph[ptr]), b.changed);
        LeTrans(s.graph, b.graph, o.state.graph);
        GrewCompose(s.graph, b.graph, o.state.graph);
        SameOutsideTrans(s.graph, b.graph, o.state.graph, {result});
        LePts(b.graph, o.state.graph, result);
      }
    }
  }

  /** Load: the result covers the set of each object the pointer points to,
      except a null object that is the largest pointee. */
  lemma LoadStepCovers(st: Setting, s: PassState, result: NodeIndex, ptr: NodeIndex, ty: Ty)
    requires result !in s.shortcutNodes && ptr != result && ptr in s.graph
    ensures forall p | p in s.graph[ptr] && p in s.graph && !(p == st.env.nullObject && forall q | q in s.graph[ptr] :: q <= p) ::
              s.graph[p] <= PtsOf(LoadStep(st, s, result, ptr, ty).state.graph, result)
  {
    var g := s.graph;
    var o := LoadStep(st, s, result, ptr, ty);
    var b := ShortcutBound(st, g, result, ty);
    ShortcutBoundProps(st, g, result, ty);
    LoadStepUnfold(st, s, result, ptr, ty);
    assert b.graph[ptr] == g[ptr];
    var elems := Sorted(g[ptr]);
    LoadFromProps(st.env, b.graph, result, elems, b.changed);
    forall p | p in g[ptr] && p in g && !(p == st.env.nullObject && forall q | q in g[ptr] :: q <= p)
      ensures g[p] <= PtsOf(o.state.graph, result)
    {
      var k := SortedIndexOf(g[ptr], p);
      LePts(g, b.graph, p);
    }
  }

  /** Loading through a pointer to the null object alone binds null to the
      result and reports only the shortcut binding. */
  lemma LoadOfNull(st: Setting, s: PassState, result: NodeIndex, ptr: NodeIndex, ty: Ty)
    requires result !in s.shortcutNodes && ptr != result
    requires ptr in s.graph && s.graph[ptr] == {st.env.nullObject}
    ensures var o := LoadStep(st, s, result, ptr, ty);
      && st.env.nullObject in PtsOf(o.state.graph, result)
      && o.changed == (LoadShortcut(st, ty).Some? && Adds(s.graph, result, {LoadShortcut(st, ty).value}))
  {
    SortedSingleton(st.env.nullObject);
  }

  // ---------------------------------------------------------------- GetElementPtr

  /** The pointees the GEP walk visits, in order: after a resize the walk
      resumes above the new object's index. */
  function Visited(env: Env, m: ModuleId, ptrTy: Ty, elems: seq<NodeIndex>): seq<NodeIndex>
    requires IsStruct(ptrTy) ==> env.structInfo(ptrTy, m).Some?
    decreases |elems|
  {
    if elems == [] then [] else [elems[0]] + Visited(env, m, ptrTy, NextOf(env, m, ptrTy, elems))
  }

  /** Some pointee the walk visits selects `x`. */
  ghost predicate GepSelects(env: Env, m: ModuleId, ptrTy: Ty, fieldNum: nat, elems: seq<NodeIndex>, x: NodeIndex)
    requires IsStruct(ptrTy) ==> env.structInfo(ptrTy, m).Some?
  {
    exists p :: p in Visited(env, m, ptrTy, elems) && GepTarget(env, m, ptrTy, fieldNum, p) == Some(x)
  }

  /** The nodes a GEP with a non-negative offset selects from the pointees it visits. */
  function GepTargets(env: Env, m: ModuleId, ptrTy: Ty, fieldNum: nat, elems: seq<NodeIndex>): set<NodeIndex>
    requires IsStruct(ptrTy) ==> env.structInfo(ptrTy, m).Some?
    decreases |elems|
  {
    if elems == [] then {}
    else
      var t := GepTarget(env, m, ptrTy, fieldNum, elems[0]);
      (if t.Some? then {t.value} else {}) + GepTargets(env, m, ptrTy, fieldNum, NextOf(env, m, ptrTy, elems))
  }

  lemma {:induction false} GepTargetsMembers(env: Env, m: ModuleId, ptrTy: Ty, fieldNum: nat, elems: seq<NodeIndex>)
    requires IsStruct(ptrTy) ==> env.structInfo(ptrTy, m).Some?
    ensures forall x :: x in GepTargets(env, m, ptrTy, fieldNum, elems) <==> GepSelects(env, m, ptrTy, fieldNum, elems, x)
    decreases |elems|
  {
    if elems != [] {
      var rest := NextOf(env, m, ptrTy, elems);
      var vs := Visited(env, m, ptrTy, elems);
      GepTargetsMembers(env, m, ptrTy, fieldNum, rest);
      assert vs == [elems[0]] + Visited(env, m, ptrTy, rest);
      forall x | x in GepTargets(env, m, ptrTy, fieldNum, elems)
        ensures exists p :: p in vs && GepTarget(env, m, ptrTy, fieldNum, p) == Some(x)
      {
        if GepTarget(env, m, ptrTy, fieldNum, elems[0]) != Some(x) {
          assert x in GepTargets(env, m, ptrTy, fieldNum, rest);
          assert GepSelects(env, m, ptrTy, fieldNum, rest, x);
          var p :| p in Visited(env, m, ptrTy, rest) && GepTarget(env, m, ptrTy, fieldNum, p) == Some(x);
          assert p in vs;
        } else {
          assert elems[0] in vs;
        }
      }
      forall x | exists p :: p in vs && GepTarget(env, m, ptrTy, fieldNum, p) == Some(x)
        ensures x in GepTargets(env, m, ptrTy, fieldNum, elems)
      {
        var p :| p in vs && GepTarget(env, m, ptrTy, fieldNum, p) == Some(x);
        if p != elems[0] {
          assert p in Visited(env, m, ptrTy, rest);
        }
      }
    }
  }

  /** The walk visits only pointees of the set. */
  lemma {:induction false} VisitedWithin(env: Env, m: ModuleId, ptrTy: Ty, elems: seq<NodeIndex>)
    requires IsStruct(ptrTy) ==> env.structInfo(ptrTy, m).Some?
    ensures forall p | p in Visited(env, m, ptrTy, elems) :: p in elems
    decreases |elems|
  {
    if elems != [] {
      var rest := NextOf(env, m, ptrTy, elems);
      VisitedWithin(env, m, ptrTy, rest);
      assert Visited(env, m, ptrTy, elems) == [elems[0]] + Visited(env, m, ptrTy, rest);
    }
  }

  /** No pointee of `vs` below `p` was resized to an index at or above `p`. */
  ghost predicate ClearOf(env: Env, m: ModuleId, ptrTy: Ty, vs: seq<NodeIndex>, p: NodeIndex)
    requires IsStruct(ptrTy) ==> env.structInfo(ptrTy, m).Some?
  {
    forall q | q in vs && q < p && Moves(env, m, ptrTy, q) :: GepBase(env, m, ptrTy, q) < p
  }

  lemma ClearOfCons(env: Env, m: ModuleId, ptrTy: Ty, e: NodeIndex, vr: seq<NodeIndex>, p: NodeIndex)
    requires IsStruct(ptrTy) ==> env.structInfo(ptrTy, m).Some?
    ensures ClearOf(env, m, ptrTy, [e] + vr, p) <==>
              (e < p && Moves(env, m, ptrTy, e) ==> GepBase(env, m, ptrTy, e) < p) && ClearOf(env, m, ptrTy, vr, p)
  {
    assert forall q :: q in [e] + vr <==> q == e || q in vr;
  }

  /** Over an ascending walk, a pointee is visited exactly when it lies above
      the new index of every visited smaller pointee that was resized. */
  lemma {:induction false} VisitedMembers(env: Env, m: ModuleId, ptrTy: Ty, elems: seq<NodeIndex>)
    requires IsStruct(ptrTy) ==> env.structInfo(ptrTy, m).Some?
    requires Increasing(elems)
    ensures forall p: NodeIndex :: p in Visited(env, m, ptrTy, elems) <==>
              p in elems && ClearOf(env, m, ptrTy, Visited(env, m, ptrTy, elems), p)
    decreases |elems|
  {
    if elems != [] {
      var e := elems[0];
      var rest := NextOf(env, m, ptrTy, elems);
      var vr := Visited(env, m, ptrTy, rest);
      var vs := Visited(env, m, ptrTy, elems);
      assert vs == [e] + vr;
      IncreasingTail(elems);
      if Moves(env, m, ptrTy, e) {
        AboveIncreasing(elems[1..], GepBase(env, m, ptrTy, e));
      }
      VisitedMembers(env, m, ptrTy, rest);
      VisitedWithin(env, m, ptrTy, rest);
      forall p: NodeIndex ensures p in vs <==> p in elems && ClearOf(env, m, ptrTy, vs, p) {
        ClearOfCons(env, m, ptrTy, e, vr, p);
        assert p in elems <==> p == e || p in elems[1..] by {
          assert elems == [e] + elems[1..];
        }
        assert p in vs <==> p == e || p in vr;
        if p == e {
          assert forall q | q in vr :: e < q;
          assert ClearOf(env, m, ptrTy, vr, p);
        } else if p < e {
          assert forall q | q in vr :: e < q;
          assert p !in vr;
          assert p !in elems[1..];
        } else {
          assert p in vr <==> p in rest && ClearOf(env, m, ptrTy, vr, p);
          if Moves(env, m, ptrTy, e) {
            assert p in rest <==> p in elems[1..] && p > GepBase(env, m, ptrTy, e);
          } else {
            assert rest == elems[1..];
          }
        }
      }
    }
  }

  /** When no pointee is resized the walk visits all of them. */
  lemma {:induction false} VisitedAll(env: Env, m: ModuleId, ptrTy: Ty, elems: seq<NodeIndex>)
    requires IsStruct(ptrTy) ==> env.structInfo(ptrTy, m).Some?
    requires forall p | p in elems :: !Moves(env, m, ptrTy, p)
    ensures Visited(env, m, ptrTy, elems) == elems
    decreases |elems|
  {
    if elems != [] {
      assert forall p | p in elems[1..] :: p in elems;
      VisitedAll(env, m, ptrTy, elems[1..]);
    }
  }

  /** A resize whose new index lies above every pointee ends the walk. */
  lemma GepResizeEndsWalk(env: Env, m: ModuleId, ptrTy: Ty, elems: seq<NodeIndex>)
    requires IsStruct(ptrTy) ==> env.structInfo(ptrTy, m).Some?
    requires elems != [] && Moves(env, m, ptrTy, elems[0])
    requires forall p | p in elems :: p <= GepBase(env, m, ptrTy, elems[0])
    ensures Visited(env, m, ptrTy, elems) == [elems[0]]
  {
    assert forall x | x in elems[1..] :: x in elems;
    AboveNone(elems[1..], GepBase(env, m, ptrTy, elems[0]));
  }

  /** The GEP fold only inserts into the result. */
  lemma {:induction false} GepFromProps(env: Env, m: ModuleId, ptrTy: Ty, result: NodeIndex, offset: int,
                                        fieldNum: nat, g: Graph, elems: seq<NodeIndex>, changed: bool)
    requires IsStruct(ptrTy) ==> env.structInfo(ptrTy, m).Some?
    ensures Extends(g, GepFrom(env, m, ptrTy, result, offset, fieldNum, g, elems, changed), changed, {result})
    decreases |elems|
  {
    var o := GepFrom(env, m, ptrTy, result, offset, fieldNum, g, elems, changed);
    if elems == [] {
      ExtendsRefl(g, changed, {result});
    } else {
      var idx := elems[0];
      var rest := NextOf(env, m, ptrTy, elems);
      if env.isSpecial(idx) {
        GepFromProps(env, m, ptrTy, result, offset, fieldNum, Insert(g, result, {idx}), rest,
                     changed || Adds(g, result, {idx}));
        InsertThen(g, result, {idx}, o, changed, {result});
      } else if TooSmall(env, m, ptrTy, idx) && !env.isOpaque(idx) {
        GepFromProps(env, m, ptrTy, result, offset, fieldNum, g, rest, changed);
      } else if offset < 0 {
        ExtendsRefl(g, changed, {result});
      } else {
        var nidx := FieldTarget(env, GepBase(env, m, ptrTy, idx), fieldNum, env.objectSize(idx));
        GepFromProps(env, m, ptrTy, result, offset, fieldNum, Insert(g, result, {nidx}), rest,
                     changed || Adds(g, result, {nidx}));
        InsertThen(g, result, {nidx}, o, changed, {result});
      }
    }
  }

  /** With a non-negative offset the result gains exactly the nodes selected
      from the visited pointees. */
  lemma {:induction false} GepFromExact(env: Env, m: ModuleId, ptrTy: Ty, result: NodeIndex, offset: int,
                                        fieldNum: nat, g: Graph, elems: seq<NodeIndex>, changed: bool)
    requires IsStruct(ptrTy) ==> env.structInfo(ptrTy, m).Some?
    requires offset >= 0
    ensures PtsOf(GepFrom(env, m, ptrTy, result, offset, fieldNum, g, elems, changed).graph, result)
            == PtsOf(g, result) + GepTargets(env, m, ptrTy, fieldNum, elems)
    decreases |elems|
  {
    if elems != [] {
      var t := GepTarget(env, m, ptrTy, fieldNum, elems[0]);
      var rest := NextOf(env, m, ptrTy, elems);
      GepFromUnfold(env, m, ptrTy, result, offset, fieldNum, g, elems, changed);
      if t.Some? {
        var g1 := Insert(g, result, {t.value});
        GepFromExact(env, m, ptrTy, result, offset, fieldNum, g1, rest, changed || Adds(g, result, {t.value}));
      } else {
        GepFromExact(env, m, ptrTy, result, offset, fieldNum, g, rest, changed);
      }
    }
  }

  /** One pointee of the GEP walk when the offset is not negative. */
  lemma GepFromUnfold(env: Env, m: ModuleId, ptrTy: Ty, result: NodeIndex, offset: int,
                      fieldNum: nat, g: Graph, elems: seq<NodeIndex>, changed: bool)
    requires IsStruct(ptrTy) ==> env.structInfo(ptrTy, m).Some?
    requires offset >= 0 && elems != []
    ensures var t := GepTarget(env, m, ptrTy, fieldNum, elems[0]);
            var rest := NextOf(env, m, ptrTy, elems);
            GepFrom(env, m, ptrTy, result, offset, fieldNum, g, elems, changed)
            == if t.Some? then GepFrom(env, m, ptrTy, result, offset, fieldNum, Insert(g, result, {t.value}), rest,
                                       changed || Adds(g, result, {t.value}))
               else GepFrom(env, m, ptrTy, result, offset, fieldNum, g, rest, changed)
  {}

  /** With a negative offset the walk stops at the first pointee it would
      index: the result gains only special nodes. */
  lemma {:induction false} GepFromNegative(env: Env, m: ModuleId, ptrTy: Ty, result: NodeIndex, offset: int,
                                           fieldNum: nat, g: Graph, elems: seq<NodeIndex>, changed: bool)
    requires IsStruct(ptrTy) ==> env.structInfo(ptrTy, m).Some?
    requires offset < 0
    ensures forall x | x in PtsOf(GepFrom(env, m, ptrTy, result, offset, fieldNum, g, elems, changed).graph, result)
                         - PtsOf(g, result) :: x in elems && env.isSpecial(x)
    decreases |elems|
  {
    var o := GepFrom(env, m, ptrTy, result, offset, fieldNum, g, elems, changed);
    if elems != [] {
      var idx := elems[0];
      var rest := NextOf(env, m, ptrTy, elems);
      if env.isSpecial(idx) {
        var g1 := Insert(g, result, {idx});
        GepFromNegative(env, m, ptrTy, result, offset, fieldNum, g1, rest, changed || Adds(g, result, {idx}));
        forall x | x in PtsOf(o.graph, result) - PtsOf(g, result) ensures x in elems && env.isSpecial(x) {
          if x != idx {
            assert x in PtsOf(o.graph, result) - PtsOf(g1, result);
          }
        }
      } else if TooSmall(env, m, ptrTy, idx) && !env.isOpaque(idx) {
        GepFromNegative(env, m, ptrTy, result, offset, fieldNum, g, rest, changed);
      }
    }
  }

  /** GetElementPtr as a whole, over the pointer's points-to set. */
  lemma GepStepProps(env: Env, m: ModuleId, g: Graph, i: Instr)
    requires i.Gep? && InstrSupported(env, m, i)
    ensures Extends(g, GepStep(env, m, g, i), false, {i.result})
    ensures i.ptr in g && i.offset >= 0 ==>
              forall x :: x in PtsOf(GepStep(env, m, g, i).graph, i.result) <==>
                x in PtsOf(g, i.result)
                || GepSelects(env, m, ElementTy(i.sourceTy), i.fieldNum, Sorted(g[i.ptr]), x)
    ensures i.ptr in g && i.offset < 0 ==>
              forall x | x in PtsOf(GepStep(env, m, g, i).graph, i.result) - PtsOf(g, i.result) ::
                x in g[i.ptr] && env.isSpecial(x)
  {
    if i.ptr !in g {
      ExtendsRefl(g, false, {i.result});
    } else {
      GepFromProps(env, m, ElementTy(i.sourceTy), i.result, i.offset, i.fieldNum, g, Sorted(g[i.ptr]), false);
      if i.offset >= 0 {
        GepStepExact(env, m, g, i);
      } else {
        GepStepNegative(env, m, g, i);
      }
    }
  }

  lemma GepStepExact(env: Env, m: ModuleId, g: Graph, i: Instr)
    requires i.Gep? && InstrSupported(env, m, i) && i.ptr in g && i.offset >= 0
    ensures forall x :: x in PtsOf(GepStep(env, m, g, i).graph, i.result) <==>
              x in PtsOf(g, i.result)
              || GepSelects(env, m, ElementTy(i.sourceTy), i.fieldNum, Sorted(g[i.ptr]), x)
  {
    var elems := Sorted(g[i.ptr]);
    var ptrTy := ElementTy(i.sourceTy);
    assert GepStep(env, m, g, i) == GepFrom(env, m, ptrTy, i.result, i.offset, i.fieldNum, g, elems, false);
    GepFromExact(env, m, ptrTy, i.result, i.offset, i.fieldNum, g, elems, false);
    GepTargetsMembers(env, m, ptrTy, i.fieldNum, elems);
    var ts := GepTargets(env, m, ptrTy, i.fieldNum, elems);
    assert PtsOf(GepStep(env, m, g, i).graph, i.result) == PtsOf(g, i.result) + ts;
  }

  lemma GepStepNegative(env: Env, m: ModuleId, g: Graph, i: Instr)
    requires i.Gep? && InstrSupported(env, m, i) && i.ptr in g && i.offset < 0
    ensures forall x | x in PtsOf(GepStep(env, m, g, i).graph, i.result) - PtsOf(g, i.result) ::
              x in g[i.ptr] && env.isSpecial(x)
  {
    var elems := Sorted(g[i.ptr]);
    var ptrTy := ElementTy(i.sourceTy);
    assert GepStep(env, m, g, i) == GepFrom(env, m, ptrTy, i.result, i.offset, i.fieldNum, g, elems, false);
    GepFromNegative(env, m, ptrTy, i.result, i.offset, i.fieldNum, g, elems, false);
    SortedContents(g[i.ptr]);
  }

  /** Which pointees GetElementPtr visits: every pointee above the new index
      of each smaller pointee it resized, and all of them when none is resized. */
  lemma GepStepVisits(env: Env, m: ModuleId, g: Graph, i: Instr)
    requires i.Gep? && InstrSupported(env, m, i) && i.ptr in g
    ensures var ptrTy := ElementTy(i.sourceTy);
            var vs := Visited(env, m, ptrTy, Sorted(g[i.ptr]));
            && (forall p: NodeIndex :: p in vs <==> p in g[i.ptr] && ClearOf(env, m, ptrTy, vs, p))
            && ((forall p | p in g[i.ptr] :: !Moves(env, m, ptrTy, p)) ==> forall p :: p in vs <==> p in g[i.ptr])
  {
    var ptrTy := ElementTy(i.sourceTy);
    var elems := Sorted(g[i.ptr]);
    SortedContents(g[i.ptr]);
    SortedIncreasing(g[i.ptr]);
    VisitedMembers(env, m, ptrTy, elems);
    if forall p | p in g[i.ptr] :: !Moves(env, m, ptrTy, p) {
      VisitedAll(env, m, ptrTy, elems);
    }
  }

  /** Which node a single pointee selects, case by case. */
  lemma GepTargetCases(env: Env, m: ModuleId, ptrTy: Ty, fieldNum: nat, idx: NodeIndex)
    requires IsStruct(ptrTy) ==> env.structInfo(ptrTy, m).Some?
    ensures env.isSpecial(idx) ==> GepTarget(env, m, ptrTy, fieldNum, idx) == Some(idx)
    ensures !env.isSpecial(idx) && !env.isOpaque(idx) && IsStruct(ptrTy)
            && env.expandedSize(env.structInfo(ptrTy, m).value) > env.objectSize(idx)
            ==> GepTarget(env, m, ptrTy, fieldNum, idx) == None
    ensures !env.isSpecial(idx) && !TooSmall(env, m, ptrTy, idx) ==>
              GepTarget(env, m, ptrTy, fieldNum, idx) ==
                Some(if env.objectOffset(idx) + fieldNum > env.objectSize(idx)
                     then (if env.objectSize(idx) == 0 then UINT_MAX else env.objectSize(idx) - 1)
                     else idx + fieldNum)
  {}

  // ---------------------------------------------------------------- Call / Invoke

  /** The functions the objects `elems` stand for, special nodes excluded. */
  function CallTargets(env: Env, elems: seq<NodeIndex>): set<FuncId>
    decreases |elems|
  {
    if elems == [] then {}
    else
      var idx := elems[0];
      (if env.isSpecial(idx) || env.functionOf(idx).None? then {} else {env.functionOf(idx).value})
      + CallTargets(env, elems[1..])
  }

  lemma {:induction false} CallTargetsMembers(env: Env, elems: seq<NodeIndex>)
    ensures forall f :: f in CallTargets(env, elems) <==>
              exists p :: p in elems && !env.isSpecial(p) && env.functionOf(p) == Some(f)
    decreases |elems|
  {
    if elems != [] {
      CallTargetsMembers(env, elems[1..]);
      forall f | f in CallTargets(env, elems)
        ensures exists p :: p in elems && !env.isSpecial(p) && env.functionOf(p) == Some(f)
      {
        if f in CallTargets(env, elems[1..]) {
          var p :| p in elems[1..] && !env.isSpecial(p) && env.functionOf(p) == Some(f);
        } else {
          assert env.functionOf(elems[0]) == Some(f);
        }
      }
      forall f | exists p :: p in elems && !env.isSpecial(p) && env.functionOf(p) == Some(f)
        ensures f in CallTargets(env, elems)
      {
        var p :| p in elems && !env.isSpecial(p) && env.functionOf(p) == Some(f);
        if p != elems[0] {
          assert p in elems[1..];
        }
      }
    }
  }

  /** The bookkeeping of calling `fs` from `cs`: reachable, first-time
      reachable ones unvisited, all recorded as callees of `cs`. */
  ghost predicate Recorded(s: PassState, o: PassState, cs: CallSite, fs: set<FuncId>) {
    && o.reachable == s.reachable + fs
    && o.unvisited == s.unvisited + (fs - s.reachable)
    && Le(s.callees, o.callees)
    && Lookup(o.callees, cs.id) == Lookup(s.callees, cs.id) + fs
    && (forall c :: c != cs.id ==> Lookup(o.callees, c) == Lookup(s.callees, c))
    && o.shortcutNodes == s.shortcutNodes
    && o.unresolved == s.unresolved
    && o.calleeByType == s.calleeByType
  }

  lemma RecordedRefl(s: PassState, cs: CallSite)
    ensures Recorded(s, s, cs, {})
  {
    LeRefl(s.callees);
  }

  lemma RecordedTrans(s0: PassState, s1: PassState, s2: PassState, cs: CallSite, a: set<FuncId>, b: set<FuncId>)
    requires Recorded(s0, s1, cs, a) && Recorded(s1, s2, cs, b)
    ensures Recorded(s0, s2, cs, a + b)
  {
    LeTrans(s0.callees, s1.callees, s2.callees);
  }

  lemma CallWithProps(st: Setting, s: PassState, cs: CallSite, cf: FuncId)
    ensures Recorded(s, CallWith(st, s, cs, cf).state, cs, {cf})
    ensures Extends(s.graph, GraphOut(CallWith(st, s, cs, cf).state.graph, CallWith(st, s, cs, cf).changed), false,
                    FormalNodes(st.env.decl(cf).formals, s.shortcutNodes) + {cs.result})
  {
    AddLe(s.callees, cs.id, {cf});
    HandleCallProps(st.env, s.shortcutNodes, s.graph, cs, cf);
  }

  lemma CallWithGraph(st: Setting, s: PassState, cs: CallSite, cf: FuncId)
    ensures Le(s.graph, CallWith(st, s, cs, cf).state.graph)
    ensures CallWith(st, s, cs, cf).changed == Grew(s.graph, CallWith(st, s, cs, cf).state.graph)
  {
    HandleCallProps(st.env, s.shortcutNodes, s.graph, cs, cf);
  }

  /** The indirect-call walk: every function object pointed to becomes a callee. */
  lemma {:induction false} IndirectFromRecords(st: Setting, s: PassState, cs: CallSite, elems: seq<NodeIndex>,
                                               changed: bool)
    ensures Recorded(s, IndirectFrom(st, s, cs, elems, changed).state, cs, CallTargets(st.env, elems))
    decreases |elems|
  {
    if elems == [] {
      RecordedRefl(s, cs);
    } else {
      var idx := elems[0];
      if st.env.isSpecial(idx) || st.env.functionOf(idx).None? {
        IndirectFromRecords(st, s, cs, elems[1..], changed);
      } else {
        var f := st.env.functionOf(idx).value;
        var w := CallWith(st, s, cs, f);
        CallWithProps(st, s, cs, f);
        IndirectFromRecords(st, w.state, cs, elems[1..], changed || w.changed);
        RecordedTrans(s, w.state, IndirectFrom(st, s, cs, elems, changed).state, cs, {f},
                      CallTargets(st.env, elems[1..]));
      }
    }
  }

  /** The indirect-call walk only grows the graph and the flag says whether it did. */
  lemma {:induction false} IndirectFromGraph(st: Setting, s: PassState, cs: CallSite, elems: seq<NodeIndex>,
                                             changed: bool)
    ensures Le(s.graph, IndirectFrom(st, s, cs, elems, changed).state.graph)
    ensures IndirectFrom(st, s, cs, elems, changed).changed == (changed || Grew(s.graph, IndirectFrom(st, s, cs, elems, changed).state.graph))
    decreases |elems|
  {
    var o := IndirectFrom(st, s, cs, elems, changed);
    if elems == [] {
      LeRefl(s.graph);
      NoGrowthSamePts(s.graph, s.graph);
    } else {
      var idx := elems[0];
      if st.env.isSpecial(idx) || st.env.functionOf(idx).None? {
        IndirectFromGraph(st, s, cs, elems[1..], changed);
      } else {
        var f := st.env.functionOf(idx).value;
        var w := CallWith(st, s, cs, f);
        CallWithGraph(st, s, cs, f);
        IndirectFromGraph(st, w.state, cs, elems[1..], changed || w.changed);
        LeTrans(s.graph, w.state.graph, o.state.graph);
        GrewCompose(s.graph, w.state.graph, o.state.graph);
      }
    }
  }

  /** The functions a points-to set holds. */
  function PointedFunctions(env: Env, pts: set<NodeIndex>): set<FuncId> {
    set p | p in pts && !env.isSpecial(p) && env.functionOf(p).Some? :: env.functionOf(p).value
  }

  lemma CallTargetsOfSorted(env: Env, pts: set<NodeIndex>)
    ensures CallTargets(env, Sorted(pts)) == PointedFunctions(env, pts)
  {
    CallTargetsMembers(env, Sorted(pts));
    SortedContents(pts);
  }

  /** A direct call records the callee's definition, makes it reachable and,
      the first time, unvisited. */
  lemma DirectCallProps(st: Setting, s: PassState, cs: CallSite, cf: FuncId)
    requires !cs.inlineAsm && cs.callee == Direct(cf)
    ensures var rcf := FuncDef(st.env.decl, st.funcDefs, cf);
      && Recorded(s, CallStep(st, s, cs).state, cs, {rcf})
      && (rcf !in s.reachable ==> rcf in CallStep(st, s, cs).state.unvisited)
      && Extends(s.graph, GraphOut(CallStep(st, s, cs).state.graph, CallStep(st, s, cs).changed), false,
                 FormalNodes(st.env.decl(rcf).formals, s.shortcutNodes) + {cs.result})
  {
    CallWithProps(st, s, cs, FuncDef(st.env.decl, st.funcDefs, cf));
  }

  /** An indirect call whose operand has a points-to set resolves exactly the
      functions it points to; the operand stops being unresolved once the set
      is non-empty. */
  lemma IndirectCallProps(st: Setting, s: PassState, cs: CallSite, co: NodeIndex)
    requires !cs.inlineAsm && cs.callee == Indirect(co) && co in s.graph
    ensures var o := CallStep(st, s, cs).state;
      var fs := PointedFunctions(st.env, s.graph[co]);
      && o.reachable == s.reachable + fs
      && o.unvisited == s.unvisited + (fs - s.reachable)
      && Lookup(o.callees, cs.id) == Lookup(s.callees, cs.id) + fs
      && (forall c :: c != cs.id ==> Lookup(o.callees, c) == Lookup(s.callees, c))
      && (s.graph[co] != {} ==> o.unresolved == s.unresolved - {co})
      && o.unresolved <= s.unresolved
      && o.calleeByType == s.calleeByType
      && Le(s.graph, o.graph)
      && CallStep(st, s, cs).changed == Grew(s.graph, o.graph)
  {
    var elems := Sorted(s.graph[co]);
    var w := IndirectFrom(st, s, cs, elems, false);
    IndirectFromRecords(st, s, cs, elems, false);
    IndirectFromGraph(st, s, cs, elems, false);
    CallTargetsOfSorted(st.env, s.graph[co]);
    LePts(s.graph, w.state.graph, co);
  }

  /** An indirect call with no points-to information falls back on type
      matching and marks the operand unresolved when that finds a candidate. */
  lemma UnknownCallProps(st: Setting, s: PassState, cs: CallSite, co: NodeIndex)
    requires !cs.inlineAsm && cs.callee == Indirect(co) && co !in s.graph
    ensures var o := CallStep(st, s, cs);
      var ts := Lookup(s.calleeByType, cs.id) + CalleesByType(st.env, st.addressTaken, cs);
      && !o.changed
      && o.state == s.(calleeByType := s.calleeByType[cs.id := ts],
                       unresolved := if ts != {} then s.unresolved + {co} else s.unresolved)
      && (forall f :: f in o.state.calleeByType[cs.id] && f !in Lookup(s.calleeByType, cs.id) ==>
            f in st.addressTaken && !st.env.decl(f).intrinsic
            && (!st.env.decl(f).varArg ==> |st.env.decl(f).formals| == |cs.args|))
  {}

  // ---------------------------------------------------------------- one instruction, a function, a sweep

  /** What every transfer keeps: the graph and the callee maps only grow,
      newly unvisited functions are newly reachable, and a reported change
      is growth of the graph. */
  ghost predicate Advances(s: PassState, o: StepOut, changed: bool) {
    && Le(s.graph, o.state.graph)
    && s.reachable <= o.state.reachable
    && o.state.unvisited <= s.unvisited + (o.state.reachable - s.reachable)
    && s.shortcutNodes <= o.state.shortcutNodes
    && Le(s.callees, o.state.callees)
    && Le(s.calleeByType, o.state.calleeByType)
    && (o.changed ==> changed || Grew(s.graph, o.state.graph))
  }

  lemma AdvancesRefl(s: PassState, changed: bool)
    ensures Advances(s, StepOut(s, changed), changed)
  {
    LeRefl(s.graph);
    LeRefl(s.callees);
    LeRefl(s.calleeByType);
  }

  lemma AdvancesTrans(s0: PassState, o1: StepOut, o2: StepOut, changed: bool)
    requires Advances(s0, o1, false) && Advances(o1.state, o2, changed || o1.changed)
    ensures Advances(s0, o2, changed)
  {
    LeTrans(s0.graph, o1.state.graph, o2.state.graph);
    LeTrans(s0.callees, o1.state.callees, o2.state.callees);
    LeTrans(s0.calleeByType, o1.state.calleeByType, o2.state.calleeByType);
    GrewCompose(s0.graph, o1.state.graph, o2.state.graph);
  }

  lemma LiftAdvances(s: PassState, o: GraphOut, dst: set<NodeIndex>)
    requires Extends(s.graph, o, false, dst)
    ensures Advances(s, Lift(s, o), false)
  {
    LeRefl(s.callees);
    LeRefl(s.calleeByType);
  }

  lemma CallStepAdvances(st: Setting, s: PassState, cs: CallSite)
    ensures Advances(s, CallStep(st, s, cs), false)
  {
    if cs.inlineAsm {
      AdvancesRefl(s, false);
    } else {
      match cs.callee
      case Direct(cf) =>
        DirectCallProps(st, s, cs, cf);
        LeRefl(s.calleeByType);
      case Indirect(co) =>
        if co in s.graph {
          var elems := Sorted(s.graph[co]);
          IndirectFromRecords(st, s, cs, elems, false);
          IndirectFromGraph(st, s, cs, elems, false);
          LeRefl(s.calleeByType);
        } else {
          LeRefl(s.graph);
          LeRefl(s.callees);
          AddLe(s.calleeByType, cs.id, CalleesByType(st.env, st.addressTaken, cs));
        }
    }
  }

  /** Every instruction advances the state; outside Load, the reported flag
      is exactly whether the graph grew. */
  lemma StepProps(st: Setting, s: PassState, f: FuncDecl, i: Instr)
    requires InstrSupported(st.env, st.moduleId, i)
    ensures Advances(s, Step(st, s, f, i), false)
    ensures !i.Load? && !i.Call? ==> Step(st, s, f, i).changed == Grew(s.graph, Step(st, s, f, i).state.graph)
  {
    match i
    case Ret(rv) =>
      RetStepProps(s.shortcutNodes, s.graph, f, rv);
      LiftAdvances(s, RetStep(s.shortcutNodes, s.graph, f, rv), {f.retNode});
    case Call(cs) => CallStepAdvances(st, s, cs);
    case Load(r, p, ty) =>
      LoadStepProps(st, s, r, p, ty);
      LeRefl(s.callees);
      LeRefl(s.calleeByType);
    case Store(v, p) =>
      StoreStepProps(st.env, s.graph, v, p);
      LeRefl(s.callees);
      LeRefl(s.calleeByType);
    case Gep(_, _, _, _, _) =>
      GepStepProps(st.env, st.moduleId, s.graph, i);
      LiftAdvances(s, GepStep(st.env, st.moduleId, s.graph, i), {i.result});
    case BitCast(r, src) =>
      CopyFromProps(s.graph, r, [src], false);
      LiftAdvances(s, CopyFrom(s.graph, r, [src], false), {r});
    case Phi(r, inc) =>
      CopyFromProps(s.graph, r, inc, false);
      LiftAdvances(s, CopyFrom(s.graph, r, inc, false), {r});
    case Select(r, ops) =>
      CopyFromProps(s.graph, r, SelectSources(ops), false);
      LiftAdvances(s, CopyFrom(s.graph, r, SelectSources(ops), false), {r});
    case Alloca => AdvancesRefl(s, false); NoGrowthSamePts(s.graph, s.graph);
    case Skipped => AdvancesRefl(s, false); NoGrowthSamePts(s.graph, s.graph);
    case Unhandled => AdvancesRefl(s, false); NoGrowthSamePts(s.graph, s.graph);
  }

  lemma {:induction false} RunFromProps(st: Setting, s: PassState, f: FuncDecl, body: seq<Instr>, i: nat,
                                        changed: bool)
    requires i <= |body|
    requires forall k | 0 <= k < |body| :: InstrSupported(st.env, st.moduleId, body[k])
    ensures Advances(s, RunFrom(st, s, f, body, i, changed), changed)
    ensures changed ==> RunFrom(st, s, f, body, i, changed).changed
    decreases |body| - i
  {
    if i == |body| {
      AdvancesRefl(s, changed);
    } else {
      var o := Step(st, s, f, body[i]);
      StepProps(st, s, f, body[i]);
      RunFromProps(st, o.state, f, body, i + 1, changed || o.changed);
      AdvancesTrans(s, o, RunFrom(st, s, f, body, i, changed), changed);
    }
  }

  /** runOnFunction: F leaves `unvisited` for good unless the walk makes it
      newly reachable, and a reported change is growth of the graph. */
  lemma RunOnFunctionProps(st: Setting, s: PassState, fid: FuncId)
    requires FuncSupported(st.env, st.moduleId, fid)
    ensures Advances(s, RunOnFunction(st, s, fid), false)
    ensures fid in s.reachable ==> fid !in RunOnFunction(st, s, fid).state.unvisited
  {
    var s0 := s.(unvisited := s.unvisited - {fid});
    var f := st.env.decl(fid);
    RunFromProps(st, s0, f, f.body, 0, false);
    LeRefl(s.graph);
    LeRefl(s.callees);
    LeRefl(s.calleeByType);
  }

  /** A sweep over a module advances the state. */
  lemma {:induction false} SweepFromProps(st: Setting, s: PassState, funcs: seq<FuncId>, i: nat, changed: bool)
    requires i <= |funcs|
    requires forall k | 0 <= k < |funcs| :: FuncSupported(st.env, st.moduleId, funcs[k])
    ensures Advances(s, SweepFrom(st, s, funcs, i, changed), changed)
    decreases |funcs| - i
  {
    if i == |funcs| {
      AdvancesRefl(s, changed);
    } else if !Processed(st.env.decl(funcs[i])) {
      SweepFromProps(st, s, funcs, i + 1, changed);
    } else {
      var o := RunOnFunction(st, s, funcs[i]);
      assert SweepFrom(st, s, funcs, i, changed) == SweepVisit(st, s, funcs, i, changed);
      RunOnFunctionProps(st, s, funcs[i]);
      SweepFromProps(st, o.state, funcs, i + 1, changed || o.changed);
      AdvancesTrans(s, o, SweepFrom(st, s, funcs, i, changed), changed);
    }
  }

  /** Unvisited functions stay reachable ones. */
  lemma UnvisitedStayReachable(s: PassState, o: StepOut, changed: bool)
    requires s.unvisited <= s.reachable && Advances(s, o, changed)
    ensures o.state.unvisited <= o.state.reachable
  {}
}
