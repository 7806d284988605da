/** The read-only view of the IR front end, node factory and struct analyzer
    that the call-graph pass consumes. LLVM objects are abstract identities;
    what the pass asks of them is recorded here as data or as a query. */
module Ir {
  import opened Types
  import opened Pts

  type FuncId = nat     // a Function*
  type CallId = nat     // a CallBase*
  type StructId = nat   // a StructInfo*, the struct analyzer's record of a struct type
  type ModuleId = nat   // a Module*
  type Guid = nat       // GlobalValue::getGUID()
  type GlobalId = nat   // a GlobalVariable*

  datatype Option<T> = None | Some(value: T)

  /** A value used as an operand: its type and its value node. */
  datatype Operand = Operand(ty: Ty, node: NodeIndex)

  datatype Callee =
    | Direct(fn: FuncId)           // getCalledFunction() is non-null
    | Indirect(operand: NodeIndex) // value node of the called operand

  /** A call or invoke instruction. */
  datatype CallSite = CallSite(
    id: CallId,
    callee: Callee,
    args: seq<Operand>,
    ty: Ty,              // the call's result type
    result: NodeIndex,   // value node of the call
    inlineAsm: bool,
    invoke: bool)        // an InvokeInst, which is not a CallInst

  /** One instruction, in the terms the transfer functions read it. */
  datatype Instr =
    | Ret(returned: Option<NodeIndex>)
    | Call(site: CallSite)
    | Alloca
    | Load(result: NodeIndex, ptr: NodeIndex, ty: Ty)
    | Store(value: Operand, ptr: NodeIndex)
    | Gep(result: NodeIndex, ptr: NodeIndex, sourceTy: Ty,
          offset: int,       // getGEPOffset(GEP, DL)
          fieldNum: nat)     // offsetToFieldNum(...) for that offset
    | BitCast(result: NodeIndex, src: NodeIndex)
    | Phi(result: NodeIndex, incoming: seq<NodeIndex>)
    | Select(result: NodeIndex, operands: seq<NodeIndex>)   // operand 0 is the condition
    | Skipped     // branch, switch, unreachable, binary operator, casts between integers, compares
    | Unhandled   // any other opcode: logged and skipped

  /** What the pass reads of a Function. */
  datatype FuncDecl = FuncDecl(
    name: string,
    guid: Guid,
    retTy: Ty,
    formals: seq<Operand>,     // formal arguments: type and value node
    varArg: bool,
    intrinsic: bool,
    declaration: bool,         // isDeclaration()
    empty: bool,               // empty(): no basic blocks
    externalLinkage: bool,
    addressTaken: bool,        // hasAddressTaken()
    valueNode: NodeIndex,      // value node of the function itself
    objNode: NodeIndex,        // object node of the function
    retNode: NodeIndex,        // getReturnNodeFor(F)
    directCallers: set<CallId>,  // CallInst users whose called function is F
    body: seq<Instr>)          // instructions in inst_iterator order

  datatype GlobalVar = GlobalVar(
    id: GlobalId,
    guid: Guid,
    valueTy: Ty,               // the global's value type
    node: NodeIndex,           // value node of the global
    externalLinkage: bool,
    declaration: bool)

  datatype Module = Module(id: ModuleId, globals: seq<GlobalVar>, funcs: seq<FuncId>)

  /** Queries on collaborators whose code is not part of this model:
      the node factory, the struct analyzer, and extendObjectSize. */
  datatype Env = Env(
    decl: FuncId -> FuncDecl,
    isSpecial: NodeIndex -> bool,          // isSpecialNode
    isHeap: NodeIndex -> bool,             // isHeapObject
    isOpaque: NodeIndex -> bool,           // isOpaqueObject
    objectSize: NodeIndex -> nat,          // getObjectSize (unsigned)
    objectOffset: NodeIndex -> nat,        // getObjectOffset
    nullObject: NodeIndex,                 // getNullObjectNode
    functionOf: NodeIndex -> Option<FuncId>,     // getValueForNode, when that is a Function
    structInfo: (Ty, ModuleId) -> Option<StructId>,  // getStructInfo; None for a null result
    expandedSize: StructId -> nat,         // StructInfo::getExpandedSize
    allocatorObject: CallId -> NodeIndex,  // createOpaqueObjectNode(CS, true)
    extendObject: (NodeIndex, StructId) -> NodeIndex,  // extendObjectSize's result
    shortcutObject: StructId -> NodeIndex) // createObjectNode for a type-shortcut struct

  /** The largest value of `unsigned`, where `allocSize - 1` lands for size 0. */
  const UINT_MAX: nat := 0xFFFF_FFFF

  /** The struct analyzer must know every struct a GEP indexes into
      (asserted in the GEP transfer). */
  predicate InstrSupported(env: Env, m: ModuleId, i: Instr) {
    i.Gep? && IsStruct(ElementTy(i.sourceTy)) ==> env.structInfo(ElementTy(i.sourceTy), m).Some?
  }

  predicate FuncSupported(env: Env, m: ModuleId, f: FuncId) {
    forall k | 0 <= k < |env.decl(f).body| :: InstrSupported(env, m, env.decl(f).body[k])
  }

  predicate ModuleSupported(env: Env, m: Module) {
    forall k | 0 <= k < |m.funcs| :: FuncSupported(env, m.id, m.funcs[k])
  }

  /** `needle` occurs in `s` (StringRef::find != npos). */
  function Contains(s: string, needle: string): (r: bool)
    ensures r ==> |needle| <= |s|
    decreases |s|
  {
    |needle| <= |s| && (s[..|needle|] == needle || (|s| > 0 && Contains(s[1..], needle)))
  }

  lemma {:induction false} ContainsAt(s: string, needle: string, i: nat)
    requires OccursAt(s, needle, i)
    ensures Contains(s, needle)
    decreases i
  {
    if i > 0 {
      assert s[1..][i - 1..i - 1 + |needle|] == s[i..i + |needle|];
      ContainsAt(s[1..], needle, i - 1);
    } else {
      assert s[..|needle|] == s[i..i + |needle|];
    }
  }

  /** `needle` occurs in `s` at position `i`. */
  predicate OccursAt(s: string, needle: string, i: nat) {
    i + |needle| <= |s| && s[i..i + |needle|] == needle
  }

  /** Conversely, `Contains` holds only where `needle` occurs at some position. */
  lemma {:induction false} ContainsOccurs(s: string, needle: string)
    requires Contains(s, needle)
    ensures exists i: nat :: OccursAt(s, needle, i)
    decreases |s|
  {
    if s[..|needle|] == needle {
      assert OccursAt(s, needle, 0);
    } else {
      ContainsOccurs(s[1..], needle);
      var j: nat :| OccursAt(s[1..], needle, j);
      assert s[1..][j..j + |needle|] == s[j + 1..j + 1 + |needle|];
      assert OccursAt(s, needle, j + 1);
    }
  }

  /** Entry points seeded as reachable: `main` and the system-call handlers. */
  predicate IsEntryName(name: string) {
    name == "main" || (|name| >= 4 && name[..4] == "SyS_")
  }
}
