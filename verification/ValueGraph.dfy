/** Script values as a graph: containers and pointer cells live in a heap, so a
    value can reach itself. */
module ValueGraph {
  import opened Basics

  type Addr = nat

  /** One number per class of identical types, as TypIdenticalStrict decides it. */
  type TypeId = nat

  /** A leaf's host value. `NotSelf` stands for a value that is unequal to itself (NaN). */
  datatype Native = Plain(n: int) | NotSelf

  datatype Value =
    | Nil(dyn: Option<TypeId>)          // any nil; dyn is the dynamic type of a typed nil
    | Leaf(native: Native)
    | Tag(typ: TypeId, v: Value)        // a named type's tag
    | Ref(cell: Addr)                   // a pointer to a location
    | Obj(addr: Addr)                   // a slice, struct or map

  datatype Node =
    | Cell(v: Value)
    | Slice(typ: Option<TypeId>, elems: seq<Value>)
    | Struct(typ: Option<TypeId>, fields: seq<Value>)
    | Map(typ: Option<TypeId>, pairs: map<int, Value>)   // by canonical key

  type Heap = map<Addr, Node>

  /** `v` points at existing nodes of the right kind. */
  predicate Valid(h: Heap, v: Value) {
    match v
    case Tag(_, w) => Valid(h, w)
    case Ref(c) => c in h && h[c].Cell?
    case Obj(x) => x in h && !h[x].Cell?
    case _ => true
  }

  /** The values a node holds, by position or key. */
  function Child(n: Node, k: int): Option<Value> {
    match n
    case Cell(v) => if k == 0 then Some(v) else None
    case Slice(_, es) => if 0 <= k < |es| then Some(es[k]) else None
    case Struct(_, fs) => if 0 <= k < |fs| then Some(fs[k]) else None
    case Map(_, ps) => if k in ps then Some(ps[k]) else None
  }

  function Positions(n: Node): (ks: set<int>)
    ensures forall k :: k in ks <==> Child(n, k).Some?
  {
    match n
    case Cell(_) => {0}
    case Slice(_, es) => set k | 0 <= k < |es| && Child(n, k).Some?
    case Struct(_, fs) => set k | 0 <= k < |fs| && Child(n, k).Some?
    case Map(_, ps) => ps.Keys
  }

  ghost predicate HeapOk(h: Heap) {
    forall x, k :: x in h && Child(h[x], k).Some? ==> Valid(h, Child(h[x], k).value)
  }

  /** Go's map iteration: any element may come next. */
  method AnyOf<T(==)>(s: set<T>) returns (x: T)
    requires s != {}
    ensures x in s
  {
    x :| x in s;
  }
}
