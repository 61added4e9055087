/** The codec's stabilisation law: encoding a typed value, decoding the tree into the same
    type and encoding again. */
module JsonStable {
  import opened Basics
  import opened JsonTypes
  import opened JsonCodec

  // ---- Emptiness and null -----------------------------------------------------------------

  lemma {:induction false} NullIsEmpty(defs: Defs, v: Value)
    requires DefsOk(defs) && Encode(defs, v).JNull?
    ensures IsEmpty(v)
    decreases v
  {
    if v.VPtr? {
      NullIsEmpty(defs, v.v);
    }
  }

  /** A tree decoded into an interface encodes as itself. */
  lemma {:induction false} GenericEncodes(defs: Defs, j: Tree)
    requires DefsOk(defs)
    ensures Encode(defs, Generic(j)) == j
    decreases j
  {
    match j
    case JList(ts) =>
      forall k | 0 <= k < |ts| ensures Encode(defs, Generic(ts[k])) == ts[k] {
        GenericEncodes(defs, ts[k]);
      }
    case JObject(m) =>
      forall k | k in m ensures Encode(defs, Generic(m[k])) == m[k] {
        GenericEncodes(defs, m[k]);
      }
      assert Encode(defs, Generic(j)).m == m;
    case _ =>
  }

  // ---- Members of an encoded struct --------------------------------------------------------

  /** The members written are those of the visible entries. */
  predicate MembersAre(defs: Defs, v: Value, es: seq<Entry>, m: map<string, Tree>)
    requires DefsOk(defs) && v.VStruct?
  {
    && (forall i :: 0 <= i < |es| ==> (es[i].key in m <==> Visible(es[i], v)))
    && (forall i :: 0 <= i < |es| && Visible(es[i], v) ==> m[es[i].key] == Encode(defs, ReadPath(v, es[i].path).value))
    && (forall key :: key in m ==> exists i :: 0 <= i < |es| && es[i].key == key)
  }

  lemma {:induction false} MembersOf(defs: Defs, v: Value, es: seq<Entry>)
    requires DefsOk(defs) && v.VStruct? && DistinctKeys(es)
    ensures MembersAre(defs, v, es, Members(defs, v, es))
    decreases |es|
  {
    hide Encode, ReadPath, DefsOk;
    if es != [] {
      var n := |es| - 1;
      var init, m := es[..n], Members(defs, v, es[..n]);
      MembersOf(defs, v, init);
      assert forall i :: 0 <= i < n ==> init[i] == es[i] && es[i].key != es[n].key;
      assert es[n].key !in m;
      if Visible(es[n], v) {
        MembersGrow(defs, v, es, m);
      }
    }
  }

  lemma MembersGrow(defs: Defs, v: Value, es: seq<Entry>, m: map<string, Tree>)
    requires DefsOk(defs) && v.VStruct? && DistinctKeys(es) && es != []
    requires MembersAre(defs, v, es[..|es|-1], m) && Visible(es[|es|-1], v) && es[|es|-1].key !in m
    ensures MembersAre(defs, v, es, m[es[|es|-1].key := Encode(defs, ReadPath(v, es[|es|-1].path).value)])
  {
    hide Encode, ReadPath, DefsOk;
    var n := |es| - 1;
    var init, m' := es[..n], m[es[n].key := Encode(defs, ReadPath(v, es[n].path).value)];
    forall i | 0 <= i < n
      ensures es[i].key in m' <==> Visible(es[i], v)
      ensures Visible(es[i], v) ==> m'[es[i].key] == Encode(defs, ReadPath(v, es[i].path).value)
    {
      assert init[i] == es[i] && es[i].key != es[n].key;
    }
    forall key | key in m' ensures exists i :: 0 <= i < |es| && es[i].key == key {
      if key in m {
        var i :| 0 <= i < n && init[i].key == key;
        assert es[i].key == key;
      } else {
        assert es[n].key == key;
      }
    }
  }

  // ---- Writing along paths -------------------------------------------------------------------

  /** The embeds of `z` have the declared shape and are allocated only where those of `v` are. */
  predicate Under(defs: Defs, id: nat, z: Value, v: Value)
    requires DefsOk(defs)
    decreases z, 0
  {
    && id < |defs| && z.VStruct? && z.id == id && |z.fields| == |defs[id]| && v.VStruct? && |v.fields| == |defs[id]|
    && forall k :: 0 <= k < |defs[id]| && Promotes(defs[id][k]) ==>
      EmbedUnder(defs, defs[id][k], z.fields[k], v.fields[k])
  }

  predicate EmbedUnder(defs: Defs, f: Field, z: Value, v: Value)
    requires DefsOk(defs) && Promotes(f)
    decreases z, 1
  {
    var a, b := StructOf(z), StructOf(v);
    if a.None? then z.VNil? && f.typ.TPtr?
    else b.Some? && Under(defs, Peel(f.typ).id, a.value, b.value)
         && z == if f.typ.TPtr? then VPtr(a.value) else a.value
  }

  lemma TypedEmbed(defs: Defs, v: Value, id: nat, k: nat)
    requires DefsOk(defs) && id < |defs| && v.VStruct? && HasType(defs, v, TStruct(id)) && k < |defs[id]|
    requires Promotes(defs[id][k])
    ensures |v.fields| == |defs[id]| && Known(defs, Peel(defs[id][k].typ))
    ensures var b := StructOf(v.fields[k]);
      (b.Some? ==> HasType(defs, b.value, TStruct(Peel(defs[id][k].typ).id)) && b.value < v)
      && (defs[id][k].typ.TStruct? ==> b.Some?)
  {
    assert HasType(defs, v.fields[k], defs[id][k].typ);
    PeelKnown(defs, defs[id][k].typ);
  }

  lemma {:induction false} ZeroUnder(defs: Defs, id: nat, v: Value)
    requires DefsOk(defs) && id < |defs| && HasType(defs, v, TStruct(id))
    ensures Under(defs, id, Zero(defs, TStruct(id)), v)
    decreases id
  {
    var z := Zero(defs, TStruct(id));
    forall k | 0 <= k < |defs[id]| && Promotes(defs[id][k])
      ensures EmbedUnder(defs, defs[id][k], z.fields[k], v.fields[k])
    {
      var t := defs[id][k].typ;
      TypedEmbed(defs, v, id, k);
      assert z.fields[k] == Zero(defs, t);
      if t.TStruct? {
        ZeroUnder(defs, t.id, StructOf(v.fields[k]).value);
      }
    }
  }

  /** The struct a path's first hop leads to: the one there, or a fresh zero. */
  function Hop(defs: Defs, id: nat, z: Value, k: nat): Value
    requires DefsOk(defs) && id < |defs| && z.VStruct? && k < |z.fields| == |defs[id]| && Promotes(defs[id][k])
  {
    PeelKnown(defs, defs[id][k].typ);
    var a := StructOf(z.fields[k]);
    if a.Some? then a.value else Zero(defs, Peel(defs[id][k].typ))
  }

  lemma HopUnder(defs: Defs, id: nat, z: Value, v: Value, p: seq<nat>)
    requires DefsOk(defs) && Under(defs, id, z, v) && HasType(defs, v, TStruct(id)) && PathOk(defs, id, p) && |p| > 1
    requires ReadPath(v, p).Some?
    ensures StructOf(v.fields[p[0]]).Some?
    ensures var b, j := StructOf(v.fields[p[0]]).value, Peel(defs[id][p[0]].typ).id;
      j < |defs| && HasType(defs, b, TStruct(j)) && Under(defs, j, Hop(defs, id, z, p[0]), b)
        && ReadPath(b, p[1..]).Some?
  {
    TypedEmbed(defs, v, id, p[0]);
    assert EmbedUnder(defs, defs[id][p[0]], z.fields[p[0]], v.fields[p[0]]);
    if StructOf(z.fields[p[0]]).None? {
      ZeroUnder(defs, Peel(defs[id][p[0]].typ).id, StructOf(v.fields[p[0]]).value);
    }
  }

  /** Storing through a hop rewrites that field around the updated inner struct. */
  lemma SetHop(defs: Defs, id: nat, z: Value, v: Value, p: seq<nat>, x: Value)
    requires DefsOk(defs) && Under(defs, id, z, v) && PathOk(defs, id, p) && |p| > 1
    requires Peel(defs[id][p[0]].typ).id < |defs|
    ensures var inner := SetPath(defs, Hop(defs, id, z, p[0]), Peel(defs[id][p[0]].typ).id, p[1..], x);
      SetPath(defs, z, id, p, x)
      == VStruct(id, z.fields[p[0] := if defs[id][p[0]].typ.TPtr? then VPtr(inner) else inner])
  {
    var f := z.fields[p[0]];
    assert EmbedUnder(defs, defs[id][p[0]], f, v.fields[p[0]]);
    PeelKnown(defs, defs[id][p[0]].typ);
    var inner := SetPath(defs, Hop(defs, id, z, p[0]), Peel(defs[id][p[0]].typ).id, p[1..], x);
    var a := StructOf(f);
    if a.Some? {
      assert Rewrap(a.value, inner) == inner;
      assert Rewrap(f, inner) == if defs[id][p[0]].typ.TPtr? then VPtr(inner) else inner;
    }
  }

  lemma FieldUnder(defs: Defs, id: nat, z: Value, v: Value, k: nat, y: Value)
    requires DefsOk(defs) && Under(defs, id, z, v) && k < |defs[id]|
    requires Promotes(defs[id][k]) ==> EmbedUnder(defs, defs[id][k], y, v.fields[k])
    ensures Under(defs, id, VStruct(id, z.fields[k := y]), v)
  {
    hide EmbedUnder, DefsOk, Promotes;
    var w := VStruct(id, z.fields[k := y]);
    forall i | 0 <= i < |defs[id]| && Promotes(defs[id][i])
      ensures EmbedUnder(defs, defs[id][i], w.fields[i], v.fields[i])
    {
      assert EmbedUnder(defs, defs[id][i], z.fields[i], v.fields[i]);
    }
  }

  lemma WrapUnder(defs: Defs, f: Field, inner: Value, v: Value)
    requires DefsOk(defs) && Promotes(f) && StructOf(v).Some? && Under(defs, Peel(f.typ).id, inner, StructOf(v).value)
    ensures EmbedUnder(defs, f, if f.typ.TPtr? then VPtr(inner) else inner, v)
  {
    HoldsStruct(inner);
  }

  lemma LastSet(defs: Defs, id: nat, z: Value, p: seq<nat>, x: Value)
    requires DefsOk(defs) && id < |defs| && z.VStruct? && |z.fields| == |defs[id]| && |p| == 1 && p[0] < |defs[id]|
    ensures SetPath(defs, z, id, p, x) == VStruct(z.id, z.fields[p[0] := x])
  {
  }

  lemma HoldsStruct(s: Value)
    requires s.VStruct?
    ensures StructOf(s) == StructOf(VPtr(s)) == Some(s)
  {
  }

  lemma {:induction false} SetUnder(defs: Defs, id: nat, z: Value, v: Value, p: seq<nat>, x: Value)
    requires DefsOk(defs) && Under(defs, id, z, v) && HasType(defs, v, TStruct(id)) && PathOk(defs, id, p)
    requires ReadPath(v, p).Some?
    ensures Under(defs, id, SetPath(defs, z, id, p, x), v)
    decreases |p|
  {
    hide SetPath, HasType, EmbedUnder, Hop;
    var k := p[0];
    if |p| > 1 {
      HopUnder(defs, id, z, v, p);
      SetHop(defs, id, z, v, p, x);
      var h, j := Hop(defs, id, z, k), Peel(defs[id][k].typ).id;
      SetUnder(defs, j, h, StructOf(v.fields[k]).value, p[1..], x);
      var inner := SetPath(defs, h, j, p[1..], x);
      WrapUnder(defs, defs[id][k], inner, v.fields[k]);
      FieldUnder(defs, id, z, v, k, if defs[id][k].typ.TPtr? then VPtr(inner) else inner);
    } else {
      LastSet(defs, id, z, p, x);
      FieldUnder(defs, id, z, v, k, x);
    }
  }

  /** What is reachable in `z` is reachable in `v`. */
  lemma {:induction false} UnderReads(defs: Defs, id: nat, z: Value, v: Value, q: seq<nat>)
    requires DefsOk(defs) && Under(defs, id, z, v) && PathOk(defs, id, q) && ReadPath(z, q).Some?
    ensures ReadPath(v, q).Some?
    decreases |q|
  {
    if |q| > 1 {
      assert EmbedUnder(defs, defs[id][q[0]], z.fields[q[0]], v.fields[q[0]]);
      UnderReads(defs, Peel(defs[id][q[0]].typ).id, StructOf(z.fields[q[0]]).value, StructOf(v.fields[q[0]]).value,
        q[1..]);
    }
  }

  lemma {:induction false} ReadSet(defs: Defs, id: nat, z: Value, v: Value, p: seq<nat>, x: Value)
    requires DefsOk(defs) && Under(defs, id, z, v) && HasType(defs, v, TStruct(id)) && PathOk(defs, id, p)
    requires ReadPath(v, p).Some?
    ensures SetPath(defs, z, id, p, x).VStruct? && ReadPath(SetPath(defs, z, id, p, x), p) == Some(x)
    decreases |p|
  {
    if |p| > 1 {
      HopUnder(defs, id, z, v, p);
      SetHop(defs, id, z, v, p, x);
      var j, h := Peel(defs[id][p[0]].typ).id, Hop(defs, id, z, p[0]);
      ReadSet(defs, j, h, StructOf(v.fields[p[0]]).value, p[1..], x);
      HoldsStruct(SetPath(defs, h, j, p[1..], x));
    }
  }

  /** Reading an untouched path: what was there, or a zero in an embed allocated meanwhile. */
  predicate Untouched(defs: Defs, before: Option<Value>, after: Option<Value>, t: Type)
    requires DefsOk(defs) && Known(defs, t)
  {
    if before.Some? then after == before else after.None? || after == Some(Zero(defs, t))
  }

  lemma {:induction false} ReadZero(defs: Defs, id: nat, q: seq<nat>)
    requires DefsOk(defs) && PathOk(defs, id, q)
    ensures Zero(defs, TStruct(id)).VStruct?
    ensures Untouched(defs, None, ReadPath(Zero(defs, TStruct(id)), q), Leaf(defs, id, q).typ)
    decreases |q|
  {
    var t := defs[id][q[0]].typ;
    assert Zero(defs, TStruct(id)).fields[q[0]] == Zero(defs, t);
    if |q| > 1 && t.TStruct? {
      ReadZero(defs, t.id, q[1..]);
    }
  }

  lemma {:induction false} ReadOther(defs: Defs, id: nat, z: Value, v: Value, p: seq<nat>, q: seq<nat>, x: Value)
    requires DefsOk(defs) && Under(defs, id, z, v) && HasType(defs, v, TStruct(id))
    requires PathOk(defs, id, p) && PathOk(defs, id, q) && p != q && ReadPath(v, p).Some?
    ensures SetPath(defs, z, id, p, x).VStruct?
    ensures Untouched(defs, ReadPath(z, q), ReadPath(SetPath(defs, z, id, p, x), q), Leaf(defs, id, q).typ)
    decreases |p|
  {
    assert p == [p[0]] + p[1..] && q == [q[0]] + q[1..];
    if |p| > 1 {
      HopUnder(defs, id, z, v, p);
      SetHop(defs, id, z, v, p, x);
      if p[0] == q[0] {
        var j, h := Peel(defs[id][p[0]].typ).id, Hop(defs, id, z, p[0]);
        ReadOther(defs, j, h, StructOf(v.fields[p[0]]).value, p[1..], q[1..], x);
        HoldsStruct(SetPath(defs, h, j, p[1..], x));
        if StructOf(z.fields[p[0]]).None? {
          ReadZero(defs, j, q[1..]);
        }
      }
    }
  }

  // ---- Decoding an encoded struct --------------------------------------------------------------

  /** `j` holds a member for exactly the entries `v` writes. */
  predicate Written(defs: Defs, v: Value, id: nat, es: seq<Entry>, j: Tree)
    requires DefsOk(defs)
  {
    && id < |defs| && v.VStruct? && HasType(defs, v, TStruct(id)) && j.JObject? && DistinctKeys(es)
    && forall i :: 0 <= i < |es| ==> EntryOk(defs, id, es[i], es[i].path) && (es[i].key in j.m <==> Visible(es[i], v))
  }

  lemma WrittenInit(defs: Defs, v: Value, id: nat, es: seq<Entry>, j: Tree)
    requires DefsOk(defs) && Written(defs, v, id, es, j) && es != []
    ensures Written(defs, v, id, es[..|es|-1], j)
    ensures var e := es[|es|-1]; EntryOk(defs, id, e, e.path) && (e.key in j.m <==> Visible(e, v))
  {
  }

  lemma {:induction false} DecodeUnder(defs: Defs, v: Value, id: nat, es: seq<Entry>, j: Tree)
    requires DefsOk(defs) && Written(defs, v, id, es, j)
    ensures Under(defs, id, DecodeInto(defs, j, id, es).v, v)
    decreases |es|
  {
    if es == [] {
      ZeroUnder(defs, id, v);
    } else {
      var n := |es| - 1;
      WrittenInit(defs, v, id, es, j);
      DecodeUnder(defs, v, id, es[..n], j);
      if es[n].key in j.m {
        SetUnder(defs, id, DecodeInto(defs, j, id, es[..n]).v, v, es[n].path,
          Decode(defs, j.m[es[n].key], es[n].typ).v);
      }
    }
  }

  /** A path no entry wrote holds nothing, or the zero of its type. */
  lemma {:induction false} DecodeUnread(defs: Defs, v: Value, id: nat, es: seq<Entry>, j: Tree, q: seq<nat>)
    requires DefsOk(defs) && Written(defs, v, id, es, j) && PathOk(defs, id, q)
    requires forall i :: 0 <= i < |es| && es[i].key in j.m ==> es[i].path != q
    ensures DecodeInto(defs, j, id, es).v.VStruct?
    ensures Untouched(defs, None, ReadPath(DecodeInto(defs, j, id, es).v, q), Leaf(defs, id, q).typ)
    decreases |es|
  {
    if es == [] {
      ReadZero(defs, id, q);
    } else {
      var n := |es| - 1;
      WrittenInit(defs, v, id, es, j);
      DecodeUnread(defs, v, id, es[..n], j, q);
      if es[n].key in j.m {
        DecodeUnder(defs, v, id, es[..n], j);
        ReadOther(defs, id, DecodeInto(defs, j, id, es[..n]).v, v, es[n].path, q,
          Decode(defs, j.m[es[n].key], es[n].typ).v);
      }
    }
  }

  lemma SamePathSameKey(defs: Defs, v: Value, id: nat, es: seq<Entry>, j: Tree, i: nat, k: nat)
    requires DefsOk(defs) && Written(defs, v, id, es, j) && i < k < |es|
    ensures es[i].path != es[k].path
  {
  }

  /** An entry whose member is present holds that member, decoded. */
  lemma {:induction false} DecodeRead(defs: Defs, v: Value, id: nat, es: seq<Entry>, j: Tree, i: nat)
    requires DefsOk(defs) && Written(defs, v, id, es, j) && i < |es| && es[i].key in j.m
    ensures DecodeInto(defs, j, id, es).v.VStruct?
    ensures ReadPath(DecodeInto(defs, j, id, es).v, es[i].path) == Some(Decode(defs, j.m[es[i].key], es[i].typ).v)
    decreases |es|
  {
    hide Decode, HasType, SetPath, Under, PathOk;
    var n := |es| - 1;
    var before := DecodeInto(defs, j, id, es[..n]).v;
    WrittenInit(defs, v, id, es, j);
    DecodeUnder(defs, v, id, es[..n], j);
    if i == n {
      ReadSet(defs, id, before, v, es[n].path, Decode(defs, j.m[es[n].key], es[n].typ).v);
    } else {
      DecodeRead(defs, v, id, es[..n], j, i);
      if es[n].key in j.m {
        SamePathSameKey(defs, v, id, es, j, i, n);
        ReadOther(defs, id, before, v, es[n].path, es[i].path, Decode(defs, j.m[es[n].key], es[n].typ).v);
      }
    }
  }

  lemma {:induction false} DecodeOk(defs: Defs, id: nat, es: seq<Entry>, j: Tree)
    requires DefsOk(defs) && id < |defs| && j.JObject? && forall k :: 0 <= k < |es| ==> Known(defs, es[k].typ)
    requires forall i :: 0 <= i < |es| && es[i].key in j.m ==> Decode(defs, j.m[es[i].key], es[i].typ).ok
    ensures DecodeInto(defs, j, id, es).ok
    decreases |es|
  {
    if es != [] {
      DecodeOk(defs, id, es[..|es|-1], j);
    }
  }

  lemma {:induction false} ReadTyped(defs: Defs, v: Value, id: nat, p: seq<nat>)
    requires DefsOk(defs) && id < |defs| && v.VStruct? && HasType(defs, v, TStruct(id)) && PathOk(defs, id, p)
    ensures ReadPath(v, p).Some? ==> HasType(defs, ReadPath(v, p).value, Leaf(defs, id, p).typ)
    decreases |p|
  {
    if |p| > 1 {
      TypedEmbed(defs, v, id, p[0]);
      if StructOf(v.fields[p[0]]).Some? {
        ReadTyped(defs, StructOf(v.fields[p[0]]).value, Peel(defs[id][p[0]].typ).id, p[1..]);
      }
    }
  }

  lemma ZeroIsEmpty(defs: Defs, f: Value, t: Type)
    requires DefsOk(defs) && Known(defs, t) && HasType(defs, f, t) && IsEmpty(f)
    ensures IsEmpty(Zero(defs, t))
  {
  }

  // ---- The law -----------------------------------------------------------------------------------

  /** A struct, or pointers to one, none of whose fields is written, or a map without entries. */
  predicate Hollow(defs: Defs, v: Value)
    requires DefsOk(defs)
    decreases v
  {
    match v
    case VPtr(w) => Hollow(defs, w)
    case VMap(m) => m == map[]
    case VStruct(id, _) => id < |defs| ==> forall e :: e in Live(Flat(defs, id)) ==> !Visible(e, v)
    case _ => false
  }

  lemma {:induction false} NoMembers(defs: Defs, v: Value, es: seq<Entry>)
    requires DefsOk(defs) && v.VStruct?
    ensures Members(defs, v, es) == map[] <==> forall e :: e in es ==> !Visible(e, v)
    decreases |es|
  {
    if es != [] {
      var n := |es| - 1;
      NoMembers(defs, v, es[..n]);
      var before, all := Members(defs, v, es[..n]), Members(defs, v, es);
      assert forall e :: e in es <==> e in es[..n] || e == es[n];
      if Visible(es[n], v) { assert es[n].key in all.Keys; } else { assert all == before; }
    }
  }

  /** Those are the values written as {}. */
  lemma {:induction false} HollowIff(defs: Defs, v: Value)
    requires DefsOk(defs)
    ensures Hollow(defs, v) <==> Encode(defs, v) == JObject(map[])
    decreases v
  {
    match v
    case VPtr(w) => HollowIff(defs, w);
    case VMap(m) =>
      MapEmpty(m);
      MapEmpty(Encode(defs, v).m);
    case VStruct(id, _) => if id < |defs| { NoMembers(defs, v, Live(Flat(defs, id))); }
    case _ =>
  }

  /** The value sits in an interface, or behind pointers to one, and is hollow. */
  predicate Bare(defs: Defs, v: Value, t: Type)
    requires DefsOk(defs)
  {
    Peel(t).TAny? && Hollow(defs, v)
  }

  /** No field that is written has omitempty, an interface type and a hollow value: the one kind of
      value the decoder turns into something that omitempty then drops. */
  predicate Stable(defs: Defs, v: Value, t: Type)
    requires DefsOk(defs)
    decreases v
  {
    match t
    case TPtr(e) => v.VPtr? ==> Stable(defs, v.v, e)
    case TSlice(e) => v.VList? ==> forall k :: 0 <= k < |v.vs| ==> Stable(defs, v.vs[k], e)
    case TArray(_, e) => v.VList? ==> forall k :: 0 <= k < |v.vs| ==> Stable(defs, v.vs[k], e)
    case TMap(e) => v.VMap? ==> forall k :: k in v.m ==> Stable(defs, v.m[k], e)
    case TStruct(id) =>
      v.VStruct? && id < |defs| ==> forall e :: e in Live(Flat(defs, id)) && Visible(e, v) ==>
        var f := ReadPath(v, e.path).value;
        !(e.omit && Bare(defs, f, e.typ)) && Stable(defs, f, e.typ)
    case _ => true
  }

  /** What decoding an encoded value gives: no error, the same tree exactly when the value is
      stable, and emptiness kept but for the bare objects. */
  predicate RoundTrip(defs: Defs, v: Value, t: Type)
    requires DefsOk(defs) && Known(defs, t)
  {
    var d := Decode(defs, Encode(defs, v), t);
    && d.ok
    && (Encode(defs, d.v) == Encode(defs, v) <==> Stable(defs, v, t))
    && (IsEmpty(d.v) <==> IsEmpty(v) || Bare(defs, v, t))
  }

  lemma {:induction false} Stabilises(defs: Defs, v: Value, t: Type)
    requires DefsOk(defs) && Known(defs, t) && HasType(defs, v, t)
    ensures RoundTrip(defs, v, t)
    decreases v
  {
    match t
    case TPtr(e) =>
      if v.VPtr? {
        Stabilises(defs, v.v, e);
        PointerRoundTrip(defs, v, e);
      }
    case TSlice(e) =>
      if v.VList? {
        forall k | 0 <= k < |v.vs| ensures RoundTrip(defs, v.vs[k], e) { Stabilises(defs, v.vs[k], e); }
        ListRoundTrip(defs, v, t, e);
      }
    case TArray(n, e) =>
      forall k | 0 <= k < |v.vs| ensures RoundTrip(defs, v.vs[k], e) { Stabilises(defs, v.vs[k], e); }
      ListRoundTrip(defs, v, t, e);
    case TMap(e) =>
      if v.VMap? {
        forall k | k in v.m ensures RoundTrip(defs, v.m[k], e) { Stabilises(defs, v.m[k], e); }
        MapRoundTrip(defs, v, e);
      }
    case TStruct(id) =>
      LiveOk(defs, id);
      forall e | e in Live(Flat(defs, id)) && Visible(e, v)
        ensures Known(defs, e.typ) && RoundTrip(defs, ReadPath(v, e.path).value, e.typ)
      {
        ReadTyped(defs, v, id, e.path);
        Stabilises(defs, ReadPath(v, e.path).value, e.typ);
      }
      StructRoundTrip(defs, v, id);
    case TAny =>
      AnyRoundTrip(defs, v);
    case _ =>
  }

  lemma PointerRoundTrip(defs: Defs, v: Value, e: Type)
    requires DefsOk(defs) && Known(defs, e) && v.VPtr? && HasType(defs, v, TPtr(e)) && RoundTrip(defs, v.v, e)
    ensures RoundTrip(defs, v, TPtr(e))
  {
    var j := Encode(defs, v);
    assert j == Encode(defs, v.v);
    if j.JNull? {
      NullIsEmpty(defs, v.v);
      NullHasNilType(defs, v.v, e);
    }
  }

  /** Only nilable types have values that encode as null. */
  lemma {:induction false} NullHasNilType(defs: Defs, v: Value, t: Type)
    requires DefsOk(defs) && Known(defs, t) && HasType(defs, v, t) && Encode(defs, v).JNull?
    ensures Zero(defs, t).VNil?
    decreases v
  {
  }

  lemma ListRoundTrip(defs: Defs, v: Value, t: Type, e: Type)
    requires DefsOk(defs) && Known(defs, t) && v.VList? && HasType(defs, v, t)
    requires (t == TSlice(e) || (t.TArray? && t.elem == e))
    requires forall k :: 0 <= k < |v.vs| ==> RoundTrip(defs, v.vs[k], e)
    ensures RoundTrip(defs, v, t)
  {
    var j := Encode(defs, v);
    var d := Decode(defs, j, t).v;
    assert |d.vs| == |v.vs|;
    forall k | 0 <= k < |v.vs| ensures d.vs[k] == Decode(defs, Encode(defs, v.vs[k]), e).v {
      assert j.ts[k] == Encode(defs, v.vs[k]);
    }
    SameList(defs, v.vs, d.vs);
  }

  /** Lists encode alike exactly when their elements do. */
  lemma SameList(defs: Defs, v: seq<Value>, w: seq<Value>)
    requires DefsOk(defs) && |v| == |w|
    ensures Encode(defs, VList(v)) == Encode(defs, VList(w)) <==>
      forall k :: 0 <= k < |v| ==> Encode(defs, v[k]) == Encode(defs, w[k])
  {
    var a, b := Encode(defs, VList(v)).ts, Encode(defs, VList(w)).ts;
    assert forall k :: 0 <= k < |v| ==> a[k] == Encode(defs, v[k]) && b[k] == Encode(defs, w[k]);
    if forall k :: 0 <= k < |v| ==> Encode(defs, v[k]) == Encode(defs, w[k]) {
      assert a == b;
    }
  }

  /** A map decodes entry by entry. */
  lemma MapDecodes(defs: Defs, m: map<string, Value>, e: Type)
    requires DefsOk(defs) && Known(defs, e)
    ensures var d := Decode(defs, Encode(defs, VMap(m)), TMap(e));
      d.v.VMap? && d.v.m.Keys == m.Keys
      && (forall k :: k in m ==> d.v.m[k] == Decode(defs, Encode(defs, m[k]), e).v)
      && (d.ok <==> forall k :: k in m ==> Decode(defs, Encode(defs, m[k]), e).ok)
  {
    var j := Encode(defs, VMap(m));
    assert j.m.Keys == m.Keys;
    assert forall k :: k in m ==> j.m[k] == Encode(defs, m[k]);
    assert Decode(defs, j, TMap(e)).v.m.Keys == m.Keys;
  }

  lemma MapRoundTrip(defs: Defs, v: Value, e: Type)
    requires DefsOk(defs) && Known(defs, e) && v.VMap? && HasType(defs, v, TMap(e))
    requires forall k :: k in v.m ==> RoundTrip(defs, v.m[k], e)
    ensures RoundTrip(defs, v, TMap(e))
  {
    hide Encode, Decode, HasType, Hollow, DefsOk;
    MapDecodes(defs, v.m, e);
    var d := Decode(defs, Encode(defs, v), TMap(e)).v;
    assert v == VMap(v.m) && d == VMap(d.m);
    forall k | k in v.m
      ensures Decode(defs, Encode(defs, v.m[k]), e).ok
      ensures Encode(defs, d.m[k]) == Encode(defs, v.m[k]) <==> Stable(defs, v.m[k], e)
    {
      assert RoundTrip(defs, v.m[k], e);
    }
    SameMap(defs, v.m, d.m);
    MapEmpty(v.m);
    MapEmpty(d.m);
  }

  lemma SameMap(defs: Defs, v: map<string, Value>, w: map<string, Value>)
    requires DefsOk(defs) && v.Keys == w.Keys
    ensures Encode(defs, VMap(v)) == Encode(defs, VMap(w)) <==>
      forall k :: k in v ==> Encode(defs, v[k]) == Encode(defs, w[k])
  {
    var a, b := Encode(defs, VMap(v)).m, Encode(defs, VMap(w)).m;
    assert a.Keys == v.Keys && b.Keys == v.Keys;
    assert forall k :: k in v ==> a[k] == Encode(defs, v[k]) && b[k] == Encode(defs, w[k]);
    if forall k :: k in v ==> Encode(defs, v[k]) == Encode(defs, w[k]) {
      assert a == b;
    }
  }

  lemma AnyRoundTrip(defs: Defs, v: Value)
    requires DefsOk(defs)
    ensures RoundTrip(defs, v, TAny)
  {
    GenericEncodes(defs, Encode(defs, v));
    GenericEmptiness(defs, v);
    HollowIff(defs, v);
  }

  lemma {:induction false} GenericEmptiness(defs: Defs, v: Value)
    requires DefsOk(defs)
    ensures IsEmpty(Generic(Encode(defs, v))) <==> IsEmpty(v) || Encode(defs, v) == JObject(map[])
    decreases v
  {
    var j := Encode(defs, v);
    match v
    case VPtr(w) => GenericEmptiness(defs, w);
    case VMap(m) =>
      assert j.m.Keys == m.Keys && Generic(j).m.Keys == m.Keys;
      MapEmpty(m);
      MapEmpty(j.m);
      MapEmpty(Generic(j).m);
    case VStruct(_, _) => assert Generic(j).m.Keys == j.m.Keys; MapEmpty(j.m); MapEmpty(Generic(j).m);
    case _ =>
  }

  lemma MapEmpty<T>(m: map<string, T>)
    ensures m == map[] <==> m.Keys == {}
  {
    if m.Keys == {} { assert m == map[]; }
  }

  lemma StructRoundTrip(defs: Defs, v: Value, id: nat)
    requires DefsOk(defs) && id < |defs| && v.VStruct? && HasType(defs, v, TStruct(id))
    requires forall e :: e in Live(Flat(defs, id)) ==> Known(defs, e.typ)
    requires forall e :: e in Live(Flat(defs, id)) && Visible(e, v) ==>
      RoundTrip(defs, ReadPath(v, e.path).value, e.typ)
    ensures RoundTrip(defs, v, TStruct(id))
  {
    var es, j := Live(Flat(defs, id)), Encode(defs, v);
    EncodedIsWritten(defs, v, id);
    DecodeUnder(defs, v, id, es, j);
    var z := DecodeInto(defs, j, id, es).v;
    forall i | 0 <= i < |es| ensures EntryRoundTrip(defs, v, z, es[i]) {
      assert es[i] in es;
      EntryAgain(defs, v, id, es, j, i);
    }
    forall i | 0 <= i < |es| && es[i].key in j.m ensures Decode(defs, j.m[es[i].key], es[i].typ).ok {
      assert es[i] in es;
    }
    DecodeOk(defs, id, es, j);
    SameMembers(defs, v, z, es);
  }

  lemma EncodedIsWritten(defs: Defs, v: Value, id: nat)
    requires DefsOk(defs) && id < |defs| && v.VStruct? && HasType(defs, v, TStruct(id))
    ensures var es, j := Live(Flat(defs, id)), Encode(defs, v);
      && Written(defs, v, id, es, j)
      && forall i :: 0 <= i < |es| && Visible(es[i], v) ==>
        j.m[es[i].key] == Encode(defs, ReadPath(v, es[i].path).value)
  {
    LiveOk(defs, id);
    LiveKeysDistinct(Flat(defs, id), 0);
    MembersOf(defs, v, Live(Flat(defs, id)));
  }

  /** How an entry of the decoded struct compares with that of the original. */
  predicate EntryRoundTrip(defs: Defs, v: Value, z: Value, e: Entry)
    requires DefsOk(defs) && v.VStruct? && z.VStruct?
  {
    if !Visible(e, v) then !Visible(e, z)
    else
      var f := ReadPath(v, e.path).value;
      (Visible(e, z) <==> !(e.omit && Bare(defs, f, e.typ)))
      && (Visible(e, z) ==> (Encode(defs, ReadPath(z, e.path).value) == Encode(defs, f) <==> Stable(defs, f, e.typ)))
  }

  lemma EntryAgain(defs: Defs, v: Value, id: nat, es: seq<Entry>, j: Tree, i: nat)
    requires DefsOk(defs) && Written(defs, v, id, es, j) && i < |es|
    requires Visible(es[i], v) ==> j.m[es[i].key] == Encode(defs, ReadPath(v, es[i].path).value)
                                   && RoundTrip(defs, ReadPath(v, es[i].path).value, es[i].typ)
    requires DecodeInto(defs, j, id, es).v.VStruct?
    ensures EntryRoundTrip(defs, v, DecodeInto(defs, j, id, es).v, es[i])
  {
    var e, z := es[i], DecodeInto(defs, j, id, es).v;
    if Visible(e, v) {
      DecodeRead(defs, v, id, es, j, i);
    } else {
      forall k | 0 <= k < |es| && es[k].key in j.m ensures es[k].path != e.path {
        assert EntryOk(defs, id, es[k], es[k].path);
      }
      DecodeUnread(defs, v, id, es, j, e.path);
      if ReadPath(z, e.path).Some? {
        DecodeUnder(defs, v, id, es, j);
        UnderReads(defs, id, z, v, e.path);
        ReadTyped(defs, v, id, e.path);
        ZeroIsEmpty(defs, ReadPath(v, e.path).value, e.typ);
      }
    }
  }

  lemma SameMembers(defs: Defs, v: Value, z: Value, es: seq<Entry>)
    requires DefsOk(defs) && v.VStruct? && z.VStruct? && DistinctKeys(es)
    requires forall i :: 0 <= i < |es| ==> EntryRoundTrip(defs, v, z, es[i])
    ensures Members(defs, z, es) == Members(defs, v, es) <==>
      forall e :: e in es && Visible(e, v) ==>
        !(e.omit && Bare(defs, ReadPath(v, e.path).value, e.typ)) && Stable(defs, ReadPath(v, e.path).value, e.typ)
  {
    MembersOf(defs, v, es);
    MembersOf(defs, z, es);
    var a, b := Members(defs, v, es), Members(defs, z, es);
    if a == b {
      forall e | e in es && Visible(e, v)
        ensures !(e.omit && Bare(defs, ReadPath(v, e.path).value, e.typ))
          && Stable(defs, ReadPath(v, e.path).value, e.typ) {
        var i :| 0 <= i < |es| && es[i] == e;
        assert EntryRoundTrip(defs, v, z, es[i]);
        assert e.key in a;
      }
    }
    if forall e :: e in es && Visible(e, v) ==>
        !(e.omit && Bare(defs, ReadPath(v, e.path).value, e.typ)) && Stable(defs, ReadPath(v, e.path).value, e.typ) {
      forall key ensures (key in a <==> key in b) && (key in a && key in b ==> a[key] == b[key]) {
        if key in a || key in b {
          var i :| 0 <= i < |es| && es[i].key == key;
          assert es[i] in es && EntryRoundTrip(defs, v, z, es[i]);
        }
      }
      assert a == b;
    }
  }

  // ---- One round reaches a fixed point --------------------------------------------------------------

  lemma {:induction false} ZeroTyped(defs: Defs, t: Type)
    requires DefsOk(defs) && Known(defs, t)
    ensures HasType(defs, Zero(defs, t), t)
    decreases ByValue(t), t
  {
    match t
    case TArray(n, e) => ZeroTyped(defs, e);
    case TStruct(id) =>
      forall k | 0 <= k < |defs[id]| ensures HasType(defs, Zero(defs, defs[id][k].typ), defs[id][k].typ) {
        ZeroTyped(defs, defs[id][k].typ);
      }
    case TInt(bits, signed) =>
      assert Fits(0, bits, signed);
    case _ =>
  }

  lemma FieldTyped(defs: Defs, id: nat, z: Value, k: nat, y: Value)
    requires DefsOk(defs) && id < |defs| && HasType(defs, z, TStruct(id)) && z.VStruct? && |z.fields| == |defs[id]|
    requires k < |defs[id]| && HasType(defs, y, defs[id][k].typ)
    ensures HasType(defs, VStruct(id, z.fields[k := y]), TStruct(id))
  {
    var w := VStruct(id, z.fields[k := y]);
    forall i | 0 <= i < |w.fields| ensures HasType(defs, w.fields[i], defs[id][i].typ) {
      assert HasType(defs, z.fields[i], defs[id][i].typ);
    }
    assert StructOk(defs, w);
  }

  /** The struct an embed leads to is typed, and so is the embed around it when it is replaced. */
  lemma HopTyped(defs: Defs, id: nat, z: Value, k: nat)
    requires DefsOk(defs) && id < |defs| && HasType(defs, z, TStruct(id)) && z.VStruct? && |z.fields| == |defs[id]|
    requires k < |defs[id]| && Promotes(defs[id][k])
    ensures var j, f := Peel(defs[id][k].typ).id, z.fields[k];
      j < |defs| && HasType(defs, Hop(defs, id, z, k), TStruct(j))
      && (StructOf(f).Some? ==> f == if defs[id][k].typ.TPtr? then VPtr(Hop(defs, id, z, k)) else Hop(defs, id, z, k))
      && (StructOf(f).None? ==> defs[id][k].typ.TPtr?)
  {
    assert HasType(defs, z.fields[k], defs[id][k].typ);
    TypedEmbed(defs, z, id, k);
    PeelKnown(defs, defs[id][k].typ);
    ZeroTyped(defs, Peel(defs[id][k].typ));
  }

  lemma WrapTyped(defs: Defs, id: nat, k: nat, inner: Value)
    requires DefsOk(defs) && id < |defs| && k < |defs[id]| && Promotes(defs[id][k])
    requires HasType(defs, inner, TStruct(Peel(defs[id][k].typ).id))
    ensures HasType(defs, if defs[id][k].typ.TPtr? then VPtr(inner) else inner, defs[id][k].typ)
  {
    var t := defs[id][k].typ;
    assert t.TPtr? ==> Peel(t.elem) == t.elem;
  }

  /** Storing behind an embed rewraps the updated inner struct. */
  lemma SetThrough(defs: Defs, id: nat, z: Value, p: seq<nat>, x: Value)
    requires DefsOk(defs) && id < |defs| && HasType(defs, z, TStruct(id)) && z.VStruct? && |z.fields| == |defs[id]|
    requires PathOk(defs, id, p) && |p| > 1 && Peel(defs[id][p[0]].typ).id < |defs|
    ensures var inner := SetPath(defs, Hop(defs, id, z, p[0]), Peel(defs[id][p[0]].typ).id, p[1..], x);
      SetPath(defs, z, id, p, x)
        == VStruct(id, z.fields[p[0] := if defs[id][p[0]].typ.TPtr? then VPtr(inner) else inner])
  {
    hide HasType;
    assert z.id == id by { TypedShape(defs, z, id); }
    HopTyped(defs, id, z, p[0]);
    var h, j := Hop(defs, id, z, p[0]), Peel(defs[id][p[0]].typ).id;
    var inner := SetPath(defs, h, j, p[1..], x);
    assert h.VStruct? by { TypedShape(defs, h, j); }
    Rewrapped(h, inner);
  }

  lemma TypedShape(defs: Defs, z: Value, id: nat)
    requires HasType(defs, z, TStruct(id))
    ensures z.VStruct? && z.id == id && id < |defs| && |z.fields| == |defs[id]|
  {
  }

  lemma Rewrapped(h: Value, inner: Value)
    requires h.VStruct?
    ensures Rewrap(h, inner) == inner && Rewrap(VPtr(h), inner) == VPtr(inner)
  {
  }

  lemma {:induction false} SetTyped(defs: Defs, id: nat, z: Value, p: seq<nat>, x: Value)
    requires DefsOk(defs) && id < |defs| && HasType(defs, z, TStruct(id)) && PathOk(defs, id, p)
    requires HasType(defs, x, Leaf(defs, id, p).typ)
    ensures HasType(defs, SetPath(defs, z, id, p, x), TStruct(id))
    decreases |p|
  {
    hide HasType, SetPath, Hop;
    var k := p[0];
    TypedShape(defs, z, id);
    if |p| > 1 {
      HopTyped(defs, id, z, k);
      SetThrough(defs, id, z, p, x);
      var j, h := Peel(defs[id][k].typ).id, Hop(defs, id, z, k);
      SetTyped(defs, j, h, p[1..], x);
      var inner := SetPath(defs, h, j, p[1..], x);
      WrapTyped(defs, id, k, inner);
      FieldTyped(defs, id, z, k, if defs[id][k].typ.TPtr? then VPtr(inner) else inner);
    } else {
      LastSet(defs, id, z, p, x);
      FieldTyped(defs, id, z, k, x);
    }
  }

  lemma {:induction false} DecodeIntoTyped(defs: Defs, id: nat, es: seq<Entry>, j: Tree)
    requires DefsOk(defs) && id < |defs| && j.JObject?
    requires forall i :: 0 <= i < |es| ==> Known(defs, es[i].typ) && EntryOk(defs, id, es[i], es[i].path)
    requires forall i :: 0 <= i < |es| && es[i].key in j.m ==>
      HasType(defs, Decode(defs, j.m[es[i].key], es[i].typ).v, es[i].typ)
    ensures HasType(defs, DecodeInto(defs, j, id, es).v, TStruct(id))
    decreases |es|
  {
    if es == [] {
      ZeroTyped(defs, TStruct(id));
    } else {
      var n := |es| - 1;
      DecodeIntoTyped(defs, id, es[..n], j);
      if es[n].key in j.m {
        SetTyped(defs, id, DecodeInto(defs, j, id, es[..n]).v, es[n].path, Decode(defs, j.m[es[n].key], es[n].typ).v);
      }
    }
  }

  lemma {:induction false} GenericDynamic(defs: Defs, j: Tree)
    ensures Dynamic(defs, Generic(j))
    decreases j
  {
    match j
    case JList(ts) => forall k | 0 <= k < |ts| ensures Dynamic(defs, Generic(ts[k])) { GenericDynamic(defs, ts[k]); }
    case JObject(m) => forall k | k in m ensures Dynamic(defs, Generic(m[k])) { GenericDynamic(defs, m[k]); }
    case _ =>
  }

  /** Decoding what a typed value encodes to gives a value of the same type. */
  lemma {:induction false} DecodedTyped(defs: Defs, v: Value, t: Type)
    requires DefsOk(defs) && Known(defs, t) && HasType(defs, v, t)
    ensures HasType(defs, Decode(defs, Encode(defs, v), t).v, t)
    decreases v
  {
    var j := Encode(defs, v);
    if j.JNull? {
      ZeroTyped(defs, t);
    } else {
      match t
      case TPtr(e) => DecodedTyped(defs, v.v, e);
      case TSlice(e) => forall k | 0 <= k < |v.vs| ensures HasType(defs, Decode(defs, j.ts[k], e).v, e) {
        DecodedTyped(defs, v.vs[k], e);
      }
      case TArray(_, e) => forall k | 0 <= k < |v.vs| ensures HasType(defs, Decode(defs, j.ts[k], e).v, e) {
        DecodedTyped(defs, v.vs[k], e);
      }
      case TMap(e) => forall k | k in v.m ensures HasType(defs, Decode(defs, j.m[k], e).v, e) {
        DecodedTyped(defs, v.m[k], e);
      }
      case TAny => GenericDynamic(defs, j);
      case TStruct(id) =>
        var es := Live(Flat(defs, id));
        EncodedIsWritten(defs, v, id);
        forall i | 0 <= i < |es| && es[i].key in j.m
          ensures HasType(defs, Decode(defs, j.m[es[i].key], es[i].typ).v, es[i].typ)
        {
          ReadTyped(defs, v, id, es[i].path);
          DecodedTyped(defs, ReadPath(v, es[i].path).value, es[i].typ);
        }
        DecodeIntoTyped(defs, id, es, j);
      case _ =>
    }
  }

  /** Decoded into an interface, {} is empty. */
  lemma {:induction false} BareDecodesEmpty(defs: Defs, j: Tree, t: Type)
    requires DefsOk(defs) && Known(defs, t) && Bare(defs, Decode(defs, j, t).v, t)
    ensures IsEmpty(Decode(defs, j, t).v)
    decreases t
  {
    match t
    case TPtr(e) =>
      if !j.JNull? { BareDecodesEmpty(defs, j, e); }
    case TAny =>
      GenericEncodes(defs, j);
      HollowIff(defs, Decode(defs, j, t).v);
    case _ =>
  }

  lemma {:induction false} DecodedStable(defs: Defs, v: Value, t: Type)
    requires DefsOk(defs) && Known(defs, t) && HasType(defs, v, t)
    ensures Stable(defs, Decode(defs, Encode(defs, v), t).v, t)
    decreases v
  {
    var j := Encode(defs, v);
    if !j.JNull? {
      match t
      case TPtr(e) => DecodedStable(defs, v.v, e);
      case TSlice(e) => forall k | 0 <= k < |v.vs| ensures Stable(defs, Decode(defs, j.ts[k], e).v, e) {
        DecodedStable(defs, v.vs[k], e);
      }
      case TArray(_, e) => forall k | 0 <= k < |v.vs| ensures Stable(defs, Decode(defs, j.ts[k], e).v, e) {
        DecodedStable(defs, v.vs[k], e);
      }
      case TMap(e) => forall k | k in v.m ensures Stable(defs, Decode(defs, j.m[k], e).v, e) {
        DecodedStable(defs, v.m[k], e);
      }
      case TStruct(id) => DecodedStructStable(defs, v, id);
      case _ =>
    } else {
      NullHasNilType(defs, v, t);
    }
  }

  lemma {:induction false} DecodedStructStable(defs: Defs, v: Value, id: nat)
    requires DefsOk(defs) && id < |defs| && v.VStruct? && HasType(defs, v, TStruct(id))
    ensures Stable(defs, Decode(defs, Encode(defs, v), TStruct(id)).v, TStruct(id))
    decreases v, 0
  {
    var j, es := Encode(defs, v), Live(Flat(defs, id));
    EncodedIsWritten(defs, v, id);
    DecodeUnder(defs, v, id, es, j);
    var z := DecodeInto(defs, j, id, es).v;
    forall e | e in es && Visible(e, z)
      ensures var f := ReadPath(z, e.path).value; !(e.omit && Bare(defs, f, e.typ)) && Stable(defs, f, e.typ)
    {
      var i :| 0 <= i < |es| && es[i] == e;
      if Visible(e, v) {
        DecodeRead(defs, v, id, es, j, i);
        ReadTyped(defs, v, id, e.path);
        DecodedStable(defs, ReadPath(v, e.path).value, e.typ);
        if Bare(defs, ReadPath(z, e.path).value, e.typ) { BareDecodesEmpty(defs, j.m[e.key], e.typ); }
      } else {
        Stabilises(defs, v, TStruct(id));
        StructEntries(defs, v, id, i);
      }
    }
  }

  /** An entry the original does not write, the decoded struct does not write either. */
  lemma StructEntries(defs: Defs, v: Value, id: nat, i: nat)
    requires DefsOk(defs) && id < |defs| && v.VStruct? && HasType(defs, v, TStruct(id)) && i < |Live(Flat(defs, id))|
    requires !Visible(Live(Flat(defs, id))[i], v)
    ensures var z := Decode(defs, Encode(defs, v), TStruct(id)).v; z.VStruct? && !Visible(Live(Flat(defs, id))[i], z)
  {
    var j, es := Encode(defs, v), Live(Flat(defs, id));
    EncodedIsWritten(defs, v, id);
    DecodeUnder(defs, v, id, es, j);
    EntryAgain(defs, v, id, es, j, i);
  }

  /** Whatever the first round changed, every later round keeps. */
  lemma SecondRoundKeeps(defs: Defs, v: Value, t: Type)
    requires DefsOk(defs) && Known(defs, t) && HasType(defs, v, t)
    ensures var d := Decode(defs, Encode(defs, v), t).v;
      Encode(defs, Decode(defs, Encode(defs, d), t).v) == Encode(defs, d)
  {
    var d := Decode(defs, Encode(defs, v), t).v;
    DecodedTyped(defs, v, t);
    DecodedStable(defs, v, t);
    Stabilises(defs, d, t);
  }

  /** struct { F any `json:",omitempty"` } holding struct{}: written as {"F":{}}, then as {}. */
  lemma BareObjectIsLost()
    ensures var defs := [[], [Field("F", false, true, false, false, TAny)]];
      var v := VStruct(1, [VStruct(0, [])]);
      DefsOk(defs) && HasType(defs, v, TStruct(1)) && !Stable(defs, v, TStruct(1))
  {
    var f := Field("F", false, true, false, false, TAny);
    var defs := [[], [f]];
    var v := VStruct(1, [VStruct(0, [])]);
    assert HasType(defs, v.fields[0], TAny);
    var none: seq<Entry>, top: seq<nat>, e := [], [], Entry("F", [0], false, 0, true, TAny);
    assert FieldsFrom(defs, 0, 0, top, 0, {} + {0}) == none;
    assert Flat(defs, 0) == none && Live(none) == none;
    assert top + [0] == [0];
    assert FieldEntries(defs, 1, 0, top, 0, {} + {1}) == [e];
    assert FieldsFrom(defs, 1, 1, top, 0, {} + {1}) == none;
    assert FieldsFrom(defs, 1, 0, top, 0, {} + {1}) == [e] + none == [e];
    assert Flat(defs, 1) == [e];
    assert Wins([e], 0);
    assert LiveFrom([e], 1) == none;
    assert Live(Flat(defs, 1)) == [e];
    assert e in Live(Flat(defs, 1)) && Visible(e, v);
    assert Bare(defs, VStruct(0, []), TAny);
  }
}
