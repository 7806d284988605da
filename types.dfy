/** Type descriptors as the IR front end supplies them, and the structural
    compatibility relation that the call-graph resolver uses to match indirect
    call sites against address-taken functions (CallGraphPass::isCompatibleType). */
module Types {

  /** An IR type. Named (identified) structs are known by their name only;
      typed pointers keep their pointee, which the type-shortcut heuristic reads. */
  datatype Ty =
    | Void
    | Integer(bits: nat)
    | Pointer(pointee: Ty, addrSpace: nat)
    | Array(elem: Ty, len: nat)
    | Vector(elem: Ty, len: nat, scalable: bool)
    | LiteralStruct(elems: seq<Ty>)
    | NamedStruct(name: string)
    | Function(ret: Ty, params: seq<Ty>, varArg: bool)
    | Other(tag: nat)   // floating point, label, metadata, token, ...: known by type ID only

  /** The type ID (Type::getTypeID): literal and named structs share one ID. */
  datatype Kind =
    | VoidKind | IntegerKind | PointerKind | ArrayKind | VectorKind(scalable: bool)
    | StructKind | FunctionKind | OtherKind(tag: nat)

  function KindOf(t: Ty): Kind {
    match t
    case Void => VoidKind
    case Integer(_) => IntegerKind
    case Pointer(_, _) => PointerKind
    case Array(_, _) => ArrayKind
    case Vector(_, _, s) => VectorKind(s)
    case LiteralStruct(_) => StructKind
    case NamedStruct(_) => StructKind
    case Function(_, _, _) => FunctionKind
    case Other(tag) => OtherKind(tag)
  }

  predicate IsStruct(t: Ty) {
    t.LiteralStruct? || t.NamedStruct?
  }

  /** isCompatibleType(T1, T2) for LLVM newer than 12, where any two pointers match.
      The relation is not symmetric: T1 decides which rule applies. */
  function Compatible(t1: Ty, t2: Ty): bool
    decreases t1
  {
    if t1 == t2 then true
    else match t1
      case Void => t2.Void?
      case Integer(bits) =>
        // an integer as wide as the pointer's address space, or any integer
        (t2.Pointer? && bits == t2.addrSpace) || t2.Integer?
      case Pointer(_, _) => t2.Pointer?
      case Array(e1, _) => t2.Array? && Compatible(e1, t2.elem)
      case LiteralStruct(es1) =>
        && t2.LiteralStruct?
        && |es1| == |t2.elems|
        && forall i | 0 <= i < |es1| :: Compatible(es1[i], t2.elems[i])
      case NamedStruct(n1) => t2.NamedStruct? && n1 == t2.name
      case Function(r1, ps1, va1) =>
        && t2.Function?
        && Compatible(r1, t2.ret)
        && if va1 then t2.varArg
           else |ps1| == |t2.params| && forall i | 0 <= i < |ps1| :: Compatible(ps1[i], t2.params[i])
      case Vector(_, _, _) => KindOf(t1) == KindOf(t2)
      case Other(_) => KindOf(t1) == KindOf(t2)
  }

  // ---- scalar cases

  lemma IdenticalCompatible(t: Ty)
    ensures Compatible(t, t)
  {}

  lemma VoidOnlyWithVoid(t: Ty)
    ensures Compatible(Void, t) <==> t == Void
  {}

  lemma IntegersCompatible(b1: nat, b2: nat)
    ensures Compatible(Integer(b1), Integer(b2))
  {}

  lemma IntegerPointer(bits: nat, pointee: Ty, addrSpace: nat)
    ensures Compatible(Integer(bits), Pointer(pointee, addrSpace)) <==> bits == addrSpace
  {}

  lemma PointerOnlyWithPointer(t1: Ty, t2: Ty)
    requires t1.Pointer?
    ensures Compatible(t1, t2) <==> t2.Pointer?
  {}

  /** The integer-to-pointer rule is one-way: the relation is not symmetric. */
  lemma NotSymmetric()
    ensures Compatible(Integer(0), Pointer(Void, 0))
    ensures !Compatible(Pointer(Void, 0), Integer(0))
  {}

  // ---- aggregate cases

  lemma ArraysByElement(e1: Ty, n1: nat, e2: Ty, n2: nat)
    ensures Compatible(Array(e1, n1), Array(e2, n2)) <==> Compatible(e1, e2)
  {
    if Array(e1, n1) == Array(e2, n2) {
      IdenticalCompatible(e1);
    }
  }

  lemma LiteralNeverNamed(es: seq<Ty>, name: string)
    ensures !Compatible(LiteralStruct(es), NamedStruct(name))
    ensures !Compatible(NamedStruct(name), LiteralStruct(es))
  {}

  lemma LiteralStructsPairwise(es1: seq<Ty>, es2: seq<Ty>)
    ensures Compatible(LiteralStruct(es1), LiteralStruct(es2)) <==>
            |es1| == |es2| && forall i | 0 <= i < |es1| :: Compatible(es1[i], es2[i])
  {
    if es1 == es2 {
      forall i | 0 <= i < |es1| ensures Compatible(es1[i], es2[i]) {
        IdenticalCompatible(es1[i]);
      }
    }
  }

  lemma NamedStructsByName(n1: string, n2: string)
    ensures Compatible(NamedStruct(n1), NamedStruct(n2)) <==> n1 == n2
  {}

  lemma FunctionsBySignature(r1: Ty, ps1: seq<Ty>, va1: bool, r2: Ty, ps2: seq<Ty>, va2: bool)
    ensures Compatible(Function(r1, ps1, va1), Function(r2, ps2, va2)) <==>
            && Compatible(r1, r2)
            && if va1 then va2
               else |ps1| == |ps2| && forall i | 0 <= i < |ps1| :: Compatible(ps1[i], ps2[i])
  {
    if Function(r1, ps1, va1) == Function(r2, ps2, va2) {
      IdenticalCompatible(r1);
      forall i | 0 <= i < |ps1| ensures Compatible(ps1[i], ps2[i]) {
        IdenticalCompatible(ps1[i]);
      }
    }
  }

  /** Apart from an integer matched against a pointer, compatible types share a type ID. */
  lemma CompatibleSameKind(t1: Ty, t2: Ty)
    requires Compatible(t1, t2)
    requires !(t1.Integer? && t2.Pointer?)
    ensures KindOf(t1) == KindOf(t2)
  {}

  // ---- getElementTy and the array collapse of doInitialization

  /** The element type left after stripping every array and vector layer. */
  function ElementTy(t: Ty): (r: Ty)
    ensures !r.Array? && !r.Vector?
  {
    match t
    case Array(e, _) => ElementTy(e)
    case Vector(e, _, _) => ElementTy(e)
    case _ => t
  }

  /** getElementTy: the strip loop. */
  method GetElementTy(t: Ty) returns (r: Ty)
    ensures r == ElementTy(t)
    ensures !r.Array? && !r.Vector?
  {
    r := t;
    while r.Array? || r.Vector?
      invariant ElementTy(r) == ElementTy(t)
      decreases r
    {
      r := r.elem;
    }
  }

  /** The element type left after stripping array layers only. */
  function StripArrays(t: Ty): (r: Ty)
    ensures !r.Array?
  {
    if t.Array? then StripArrays(t.elem) else t
  }

  /** The array collapse of doInitialization: `while (ArrayType *AT = ...)`. */
  method CollapseArrays(t: Ty) returns (r: Ty)
    ensures r == StripArrays(t)
    ensures !r.Array?
  {
    r := t;
    while r.Array?
      invariant StripArrays(r) == StripArrays(t)
      decreases r
    {
      r := r.elem;
    }
  }

  lemma {:induction false} ElementTyIdempotent(t: Ty)
    ensures ElementTy(ElementTy(t)) == ElementTy(t)
  {
    match t
    case Array(e, _) => ElementTyIdempotent(e);
    case Vector(e, _, _) => ElementTyIdempotent(e);
    case _ =>
  }

  /** Stripping vectors as well can only go further than stripping arrays. */
  lemma {:induction false} ElementTyAfterStrip(t: Ty)
    ensures ElementTy(StripArrays(t)) == ElementTy(t)
  {
    if t.Array? {
      ElementTyAfterStrip(t.elem);
    }
  }
}
