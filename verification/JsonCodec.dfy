/** Encoding typed values to JSON trees and decoding trees into declared types. */
module JsonCodec {
  import opened Basics
  import opened JsonTypes

  datatype Value =
    | VNil
    | VBool(b: bool)
    | VString(s: string)
    | VFloat(r: real)
    | VInt(i: int)
    | VPtr(v: Value)
    | VList(vs: seq<Value>)
    | VMap(m: map<string, Value>)
    | VStruct(id: nat, fields: seq<Value>)

  datatype Tree =
    | JNull
    | JBool(b: bool)
    | JString(s: string)
    | JNum(r: real)
    | JList(ts: seq<Tree>)
    | JObject(m: map<string, Tree>)

  // ---- Well-typed values -----------------------------------------------------------------

  const EXACT: int := 0x20_0000_0000_0000   // 2^53

  predicate Fits(i: int, bits: nat, signed: bool) {
    bits >= 64 || (if signed && bits > 0 then 0 - Pow2(bits - 1) <= i <= Pow2(bits - 1) - 1
                   else if signed then i == 0
                   else 0 <= i <= Pow2(bits) - 1)
  }

  /** `v` is a value of declared type `t`; integers are within 2^53. */
  predicate HasType(defs: Defs, v: Value, t: Type)
    decreases v, 1
  {
    match t
    case TBool => v.VBool?
    case TString => v.VString?
    case TFloat => v.VFloat?
    case TInt(bits, signed) => v.VInt? && -EXACT <= v.i <= EXACT && Fits(v.i, bits, signed)
    case TAny => Dynamic(defs, v)
    case TPtr(e) => v.VNil? || (v.VPtr? && HasType(defs, v.v, e))
    case TSlice(e) => v.VNil? || (v.VList? && forall k :: 0 <= k < |v.vs| ==> HasType(defs, v.vs[k], e))
    case TArray(n, e) => v.VList? && |v.vs| == n && forall k :: 0 <= k < n ==> HasType(defs, v.vs[k], e)
    case TMap(e) => v.VNil? || (v.VMap? && forall k :: k in v.m ==> HasType(defs, v.m[k], e))
    case TStruct(id) => v.VStruct? && v.id == id && StructOk(defs, v)
  }

  predicate StructOk(defs: Defs, v: Value)
    requires v.VStruct?
    decreases v, 0
  {
    v.id < |defs| && |v.fields| == |defs[v.id]|
    && forall k :: 0 <= k < |v.fields| ==> HasType(defs, v.fields[k], defs[v.id][k].typ)
  }

  /** A value an interface can hold. */
  predicate Dynamic(defs: Defs, v: Value)
    decreases v, 0
  {
    match v
    case VInt(i) => -EXACT <= i <= EXACT
    case VPtr(w) => Dynamic(defs, w)
    case VList(vs) => forall k :: 0 <= k < |vs| ==> Dynamic(defs, vs[k])
    case VMap(m) => forall k :: k in m ==> Dynamic(defs, m[k])
    case VStruct(id, fs) =>
      id < |defs| && |fs| == |defs[id]| && forall k :: 0 <= k < |fs| ==> HasType(defs, fs[k], defs[id][k].typ)
    case _ => true
  }

  // ---- Reading through embeds ---------------------------------------------------------------

  /** The struct a field holds, directly or through pointers. */
  function StructOf(v: Value): (r: Option<Value>)
    ensures r.Some? ==> r.value.VStruct? && (r.value == v || r.value < v)
  {
    match v
    case VStruct(_, _) => Some(v)
    case VPtr(w) => StructOf(w)
    case _ => None
  }

  /** The leaf at an index path; None when a nil pointer embed is on the way. */
  function ReadPath(v: Value, path: seq<nat>): (r: Option<Value>)
    requires v.VStruct?
    ensures r.Some? ==> r.value < v
    decreases |path|
  {
    if path == [] || path[0] >= |v.fields| then None
    else if |path| == 1 then Some(v.fields[path[0]])
    else
      var s := StructOf(v.fields[path[0]]);
      if s.None? then None else ReadPath(s.value, path[1..])
  }

  /** What omitempty takes for empty: pointers are looked through. */
  predicate IsEmpty(v: Value) {
    match v
    case VNil => true
    case VBool(b) => !b
    case VString(s) => s == ""
    case VFloat(r) => r == 0.0
    case VInt(i) => i == 0
    case VPtr(w) => IsEmpty(w)
    case VList(vs) => vs == []
    case VMap(m) => m == map[]
    case VStruct(_, _) => false
  }

  /** The entry is written: its leaf is reachable and not omitted. */
  predicate Visible(e: Entry, v: Value)
    requires v.VStruct?
  {
    var f := ReadPath(v, e.path);
    f.Some? && !(e.omit && IsEmpty(f.value))
  }

  // ---- Encoding -----------------------------------------------------------------------------

  function Encode(defs: Defs, v: Value): Tree
    requires DefsOk(defs)
    decreases v, 1, 0
  {
    match v
    case VNil => JNull
    case VBool(b) => JBool(b)
    case VString(s) => JString(s)
    case VFloat(r) => JNum(r)
    case VInt(i) => JNum(i as real)
    case VPtr(w) => Encode(defs, w)
    case VList(vs) => JList(seq(|vs|, k requires 0 <= k < |vs| => Encode(defs, vs[k])))
    case VMap(m) => JObject(map k | k in m :: Encode(defs, m[k]))
    case VStruct(id, _) => if id < |defs| then JObject(Members(defs, v, Live(Flat(defs, id)))) else JObject(map[])
  }

  /** The members the entries write, in order. */
  function Members(defs: Defs, v: Value, es: seq<Entry>): map<string, Tree>
    requires DefsOk(defs) && v.VStruct?
    decreases v, 0, |es|
  {
    if es == [] then map[]
    else
      var n := |es| - 1;
      var before := Members(defs, v, es[..n]);
      if Visible(es[n], v) then before[es[n].key := Encode(defs, ReadPath(v, es[n].path).value)] else before
  }

  // ---- Decoding -----------------------------------------------------------------------------

  function Zero(defs: Defs, t: Type): Value
    requires DefsOk(defs) && Known(defs, t)
    decreases ByValue(t), t
  {
    match t
    case TBool => VBool(false)
    case TString => VString("")
    case TFloat => VFloat(0.0)
    case TInt(_, _) => VInt(0)
    case TArray(n, e) => VList(seq(n, k requires 0 <= k < n => Zero(defs, e)))
    case TStruct(id) => VStruct(id, seq(|defs[id]|, k requires 0 <= k < |defs[id]| => Zero(defs, defs[id][k].typ)))
    case _ => VNil
  }

  /** ok: no failure was recorded. */
  datatype Decoded = Decoded(v: Value, ok: bool)

  /** A tree decoded into an interface. */
  function Generic(t: Tree): Value {
    match t
    case JNull => VNil
    case JBool(b) => VBool(b)
    case JString(s) => VString(s)
    case JNum(r) => VFloat(r)
    case JList(ts) => VList(seq(|ts|, k requires 0 <= k < |ts| => Generic(ts[k])))
    case JObject(m) => VMap(map k | k in m :: Generic(m[k]))
  }

  /** The integer a number spells: integral, in the host's 64 bits, and in the declared width
      when that is below 64. */
  function IntOf(r: real, bits: nat, signed: bool): Option<int> {
    var i := r.Floor;
    if i as real == r && -0x8000_0000_0000_0000 <= i < 0x8000_0000_0000_0000 && Fits(i, bits, signed) then Some(i)
    else None
  }

  function Failed(defs: Defs, t: Type): Decoded
    requires DefsOk(defs) && Known(defs, t)
  {
    Decoded(Zero(defs, t), false)
  }

  /** jsonShape into a fresh target. */
  function Decode(defs: Defs, j: Tree, t: Type): Decoded
    requires DefsOk(defs) && Known(defs, t)
    decreases j, 1, t
  {
    if j.JNull? then Decoded(Zero(defs, t), true)
    else
      match t
      case TBool => if j.JBool? then Decoded(VBool(j.b), true) else Failed(defs, t)
      case TString => if j.JString? then Decoded(VString(j.s), true) else Failed(defs, t)
      case TFloat => if j.JNum? then Decoded(VFloat(j.r), true) else Failed(defs, t)
      case TInt(bits, signed) =>
        if j.JNum? && IntOf(j.r, bits, signed).Some? then Decoded(VInt(IntOf(j.r, bits, signed).value), true)
        else Failed(defs, t)
      case TAny => Decoded(Generic(j), true)
      case TPtr(e) => var d := Decode(defs, j, e); Decoded(VPtr(d.v), d.ok)
      case TSlice(e) =>
        if !j.JList? then Failed(defs, t)
        else Decoded(VList(seq(|j.ts|, k requires 0 <= k < |j.ts| => Decode(defs, j.ts[k], e).v)),
                     forall k :: 0 <= k < |j.ts| ==> Decode(defs, j.ts[k], e).ok)
      case TArray(n, e) =>
        if !j.JList? then Failed(defs, t)
        else Decoded(VList(seq(n, k requires 0 <= k < n =>
                       if k < |j.ts| then Decode(defs, j.ts[k], e).v else Zero(defs, e))),
                     forall k :: 0 <= k < |j.ts| && k < n ==> Decode(defs, j.ts[k], e).ok)
      case TMap(e) =>
        if !j.JObject? then Failed(defs, t)
        else Decoded(VMap(map k | k in j.m :: Decode(defs, j.m[k], e).v),
                     forall k :: k in j.m ==> Decode(defs, j.m[k], e).ok)
      case TStruct(id) =>
        if !j.JObject? then Failed(defs, t)
        else
          LiveOk(defs, id);
          DecodeInto(defs, j, id, Live(Flat(defs, id)))
  }

  /** The entries decoded one after the other into a zero struct. */
  function DecodeInto(defs: Defs, j: Tree, id: nat, es: seq<Entry>): Decoded
    requires DefsOk(defs) && id < |defs| && j.JObject?
    requires forall k :: 0 <= k < |es| ==> Known(defs, es[k].typ)
    decreases j, 0, |es|
  {
    if es == [] then Decoded(Zero(defs, TStruct(id)), true)
    else
      var n := |es| - 1;
      var before := DecodeInto(defs, j, id, es[..n]);
      var e := es[n];
      if e.key !in j.m then before
      else
        var d := Decode(defs, j.m[e.key], e.typ);
        Decoded(SetPath(defs, before.v, id, e.path, d.v), before.ok && d.ok)
  }

  /** Stores a leaf, allocating nil pointer embeds on the way. */
  function SetPath(defs: Defs, z: Value, id: nat, path: seq<nat>, x: Value): Value
    requires DefsOk(defs) && id < |defs|
    decreases |path|
  {
    if !z.VStruct? || path == [] || path[0] >= |z.fields| || path[0] >= |defs[id]| then z
    else if |path| == 1 then VStruct(z.id, z.fields[path[0] := x])
    else
      var f, t := z.fields[path[0]], defs[id][path[0]].typ;
      PeelKnown(defs, t);
      if !Peel(t).TStruct? then z
      else
        var sub := StructOf(f);
        var inner := SetPath(defs, if sub.Some? then sub.value else Zero(defs, Peel(t)), Peel(t).id, path[1..], x);
        VStruct(z.id, z.fields[path[0] := if sub.Some? then Rewrap(f, inner) else VPtr(inner)])
  }

  /** `f` with the struct it holds replaced. */
  function Rewrap(f: Value, s: Value): Value {
    match f
    case VPtr(w) => VPtr(Rewrap(w, s))
    case _ => s
  }
}
