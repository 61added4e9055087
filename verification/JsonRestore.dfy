/** What decoding gives back: every value that was written, and an error for every tree that is not one
    of the type's. */
module JsonRestore {
  import opened Basics
  import opened JsonTypes
  import opened JsonCodec
  import opened JsonStable
  import opened JsonMembers

  // ---- Values come back ------------------------------------------------------------------------------

  /** `z` is `v` again: the same booleans, strings and numbers; pointers where something was pointed at,
      and nil where the chain ended in nil; lists and maps element by element; structs field by field,
      as far as they were written. What an interface held comes back in another form, written alike. */
  predicate Restored(defs: Defs, v: Value, z: Value, t: Type)
    requires DefsOk(defs)
    decreases v
  {
    match t
    case TAny => Encode(defs, z) == Encode(defs, v)
    case TPtr(e) =>
      if Encode(defs, v).JNull? then z.VNil? else v.VPtr? && z.VPtr? && Restored(defs, v.v, z.v, e)
    case TSlice(e) =>
      if v.VNil? then z.VNil?
      else v.VList? && z.VList? && |z.vs| == |v.vs| && forall k :: 0 <= k < |v.vs| ==>
        Restored(defs, v.vs[k], z.vs[k], e)
    case TArray(_, e) =>
      v.VList? && z.VList? && |z.vs| == |v.vs| && forall k :: 0 <= k < |v.vs| ==> Restored(defs, v.vs[k], z.vs[k], e)
    case TMap(e) =>
      if v.VNil? then z.VNil?
      else v.VMap? && z.VMap? && z.m.Keys == v.m.Keys && forall k :: k in v.m.Keys ==> Restored(defs, v.m[k], z.m[k], e)
    case TStruct(id) =>
      && v.VStruct? && z.VStruct? && id < |defs|
      && forall e :: e in Live(Flat(defs, id)) && Visible(e, v) ==>
           ReadPath(z, e.path).Some? && Restored(defs, ReadPath(v, e.path).value, ReadPath(z, e.path).value, e.typ)
    case _ => z == v
  }

  /** Decoding an encoded value restores it. */
  lemma {:induction false} Restores(defs: Defs, v: Value, t: Type)
    requires DefsOk(defs) && Known(defs, t) && HasType(defs, v, t)
    ensures Restored(defs, v, Decode(defs, Encode(defs, v), t).v, t)
    decreases v, 1
  {
    var j := Encode(defs, v);
    match t
    case TAny => GenericEncodes(defs, j);
    case TPtr(e) => if !j.JNull? { Restores(defs, v.v, e); }
    case TSlice(e) => if v.VList? { ListRestores(defs, v, t, e); }
    case TArray(n, e) => ListRestores(defs, v, t, e);
    case TMap(e) => if v.VMap? { MapRestores(defs, v, e); }
    case TStruct(id) => StructRestores(defs, v, id);
    case TInt(bits, signed) => assert (v.i as real).Floor == v.i;
    case _ =>
  }

  lemma {:induction false} ListRestores(defs: Defs, v: Value, t: Type, e: Type)
    requires DefsOk(defs) && Known(defs, t) && v.VList? && HasType(defs, v, t)
    requires t == TSlice(e) || (t.TArray? && t.elem == e)
    ensures Restored(defs, v, Decode(defs, Encode(defs, v), t).v, t)
    decreases v, 0
  {
    var j := Encode(defs, v);
    var d := Decode(defs, j, t).v;
    assert d.VList? && |d.vs| == |v.vs|;
    forall k | 0 <= k < |v.vs| ensures Restored(defs, v.vs[k], d.vs[k], e) {
      assert j.ts[k] == Encode(defs, v.vs[k]);
      Restores(defs, v.vs[k], e);
    }
  }

  lemma {:induction false} MapRestores(defs: Defs, v: Value, e: Type)
    requires DefsOk(defs) && Known(defs, e) && v.VMap? && HasType(defs, v, TMap(e))
    ensures Restored(defs, v, Decode(defs, Encode(defs, v), TMap(e)).v, TMap(e))
    decreases v, 0
  {
    hide Encode, Decode, DefsOk;
    MapDecodes(defs, v.m, e);
    var d := Decode(defs, Encode(defs, v), TMap(e)).v;
    assert v == VMap(v.m);
    forall k | k in v.m.Keys ensures Restored(defs, v.m[k], d.m[k], e) { Restores(defs, v.m[k], e); }
  }

  lemma {:induction false} StructRestores(defs: Defs, v: Value, id: nat)
    requires DefsOk(defs) && id < |defs| && v.VStruct? && HasType(defs, v, TStruct(id))
    ensures Restored(defs, v, Decode(defs, Encode(defs, v), TStruct(id)).v, TStruct(id))
    decreases v, 0
  {
    hide HasType, Live, Flat, Visible;
    var es, j := Live(Flat(defs, id)), Encode(defs, v);
    EncodedIsWritten(defs, v, id);
    LiveOk(defs, id);
    var z := DecodeInto(defs, j, id, es).v;
    DecodeUnder(defs, v, id, es, j);
    forall e | e in es && Visible(e, v)
      ensures ReadPath(v, e.path).Some? && ReadPath(z, e.path).Some?
      ensures Restored(defs, ReadPath(v, e.path).value, ReadPath(z, e.path).value, e.typ)
    {
      var i :| 0 <= i < |es| && es[i] == e;
      VisibleReads(e, v);
      DecodeRead(defs, v, id, es, j, i);
      ReadTyped(defs, v, id, e.path);
      Restores(defs, ReadPath(v, e.path).value, e.typ);
    }
  }

  lemma VisibleReads(e: Entry, v: Value)
    requires v.VStruct? && Visible(e, v)
    ensures ReadPath(v, e.path).Some?
  {
  }

  // ---- Which trees decode -----------------------------------------------------------------------------

  /** An integer of the width: 64 bits at most, and within the declared ones below that. */
  predicate InRange(i: int, bits: nat, signed: bool) {
    && -0x8000_0000_0000_0000 <= i <= 0x7fff_ffff_ffff_ffff
    && (bits < 64 && !signed ==> 0 <= i < Pow2(bits))
    && (0 < bits < 64 && signed ==> 0 - Pow2(bits - 1) <= i < Pow2(bits - 1))
    && (bits == 0 && signed ==> i == 0)
  }

  /** The tree is one of the type's: null; a boolean, string or number for that; for an integer type a
      whole number in its range; a list or object whose elements and known members are. */
  ghost predicate Accepts(defs: Defs, j: Tree, t: Type)
    requires DefsOk(defs)
    decreases j, t
  {
    j.JNull? || match t
      case TBool => j.JBool?
      case TString => j.JString?
      case TFloat => j.JNum?
      case TInt(bits, signed) => j.JNum? && exists i: int :: i as real == j.r && InRange(i, bits, signed)
      case TAny => true
      case TPtr(e) => Accepts(defs, j, e)
      case TSlice(e) => j.JList? && forall k :: 0 <= k < |j.ts| ==> Accepts(defs, j.ts[k], e)
      case TArray(n, e) => j.JList? && forall k :: 0 <= k < |j.ts| && k < n ==> Accepts(defs, j.ts[k], e)
      case TMap(e) => j.JObject? && forall k :: k in j.m.Keys ==> Accepts(defs, j.m[k], e)
      case TStruct(id) =>
        j.JObject? && forall e :: Prevails(defs, id, e) && e.key in j.m.Keys ==> Accepts(defs, j.m[e.key], e.typ)
  }

  lemma IntIff(r: real, bits: nat, signed: bool)
    ensures IntOf(r, bits, signed).Some? <==> exists i: int :: i as real == r && InRange(i, bits, signed)
    ensures IntOf(r, bits, signed).Some? ==> IntOf(r, bits, signed).value as real == r
  {
    if i: int :| i as real == r && InRange(i, bits, signed) { assert (i as real).Floor == i; }
    if IntOf(r, bits, signed).Some? { assert r.Floor as real == r && InRange(r.Floor, bits, signed); }
  }

  lemma {:induction false} DecodeIntoIff(defs: Defs, j: Tree, id: nat, es: seq<Entry>)
    requires DefsOk(defs) && id < |defs| && j.JObject? && forall k :: 0 <= k < |es| ==> Known(defs, es[k].typ)
    ensures DecodeInto(defs, j, id, es).ok <==>
      forall i :: 0 <= i < |es| && es[i].key in j.m ==> Decode(defs, j.m[es[i].key], es[i].typ).ok
    decreases |es|
  {
    hide Decode, SetPath;
    if es != [] {
      var n := |es| - 1;
      DecodeIntoIff(defs, j, id, es[..n]);
      assert forall i :: 0 <= i < n ==> es[..n][i] == es[i];
    }
  }

  /** No failure is recorded exactly for the trees of the type; a value that is no list, object or
      pointer is then the tree's own, and zero otherwise. */
  lemma {:induction false} DecodeIff(defs: Defs, j: Tree, t: Type)
    requires DefsOk(defs) && Known(defs, t)
    ensures Decode(defs, j, t).ok <==> Accepts(defs, j, t)
    ensures t.TBool? ==> Decode(defs, j, t).v == if j.JBool? then VBool(j.b) else VBool(false)
    ensures t.TString? ==> Decode(defs, j, t).v == if j.JString? then VString(j.s) else VString("")
    ensures t.TFloat? ==> Decode(defs, j, t).v == if j.JNum? then VFloat(j.r) else VFloat(0.0)
    ensures t.TInt? ==> Decode(defs, j, t).v.VInt?
    ensures t.TInt? && Accepts(defs, j, t) && !j.JNull? ==> Decode(defs, j, t).v.i as real == j.r
    ensures t.TInt? && !(Accepts(defs, j, t) && !j.JNull?) ==> Decode(defs, j, t).v.i == 0
    decreases j, 1, t
  {
    if !j.JNull? {
      match t
      case TInt(bits, signed) => if j.JNum? { IntIff(j.r, bits, signed); }
      case TPtr(e) => DecodeIff(defs, j, e);
      case TSlice(e) =>
        if j.JList? {
          forall k | 0 <= k < |j.ts| ensures Decode(defs, j.ts[k], e).ok <==> Accepts(defs, j.ts[k], e) {
            DecodeIff(defs, j.ts[k], e);
          }
        }
      case TArray(n, e) =>
        if j.JList? {
          forall k | 0 <= k < |j.ts| ensures Decode(defs, j.ts[k], e).ok <==> Accepts(defs, j.ts[k], e) {
            DecodeIff(defs, j.ts[k], e);
          }
        }
      case TMap(e) =>
        if j.JObject? {
          forall k | k in j.m ensures Decode(defs, j.m[k], e).ok <==> Accepts(defs, j.m[k], e) {
            DecodeIff(defs, j.m[k], e);
          }
        }
      case TStruct(id) => if j.JObject? { StructIff(defs, j, id); }
      case _ =>
    }
  }

  lemma {:induction false} StructIff(defs: Defs, j: Tree, id: nat)
    requires DefsOk(defs) && id < |defs| && j.JObject?
    ensures Decode(defs, j, TStruct(id)).ok <==> Accepts(defs, j, TStruct(id))
    decreases j, 0
  {
    hide Live, Flat, Prevails;
    var es := Live(Flat(defs, id));
    LiveOk(defs, id);
    DecodeIntoIff(defs, j, id, es);
    forall e ensures Prevails(defs, id, e) <==> e in es { PrevailsIff(defs, id, e); }
    forall i | 0 <= i < |es| && es[i].key in j.m
      ensures Decode(defs, j.m[es[i].key], es[i].typ).ok <==> Accepts(defs, j.m[es[i].key], es[i].typ)
    {
      DecodeIff(defs, j.m[es[i].key], es[i].typ);
    }
  }
}
