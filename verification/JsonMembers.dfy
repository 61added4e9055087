/** What a struct is written as: exactly the members that Go's rule for embedded, tagged and empty
    fields gives. */
module JsonMembers {
  import opened Basics
  import opened JsonTypes
  import opened JsonFlatten
  import opened JsonCodec
  import opened JsonStable

  // ---- Reading along a path -------------------------------------------------------------------------

  /** `x` is `y`, or points at it through any number of pointers. */
  predicate PointsTo(x: Value, y: Value) {
    x == y || (x.VPtr? && PointsTo(x.v, y))
  }

  /** Field by field: `ss[j]` is the struct whose field `p[j]` is taken, the first one `v` itself, each
      further one held by the field before. */
  predicate ReadsThrough(v: Value, p: seq<nat>, ss: seq<Value>, x: Value) {
    && |ss| == |p| > 0 && ss[0] == v
    && (forall j :: 0 <= j < |p| ==> ss[j].VStruct? && p[j] < |ss[j].fields|)
    && (forall j :: 0 <= j < |p| - 1 ==> PointsTo(ss[j].fields[p[j]], ss[j + 1]))
    && x == ss[|p| - 1].fields[p[|p| - 1]]
  }

  lemma {:induction false} StructIff(f: Value, s: Value)
    ensures StructOf(f) == Some(s) <==> s.VStruct? && PointsTo(f, s)
    decreases f
  {
    if f.VPtr? { StructIff(f.v, s); }
  }

  lemma {:induction false} ReadHasWay(v: Value, p: seq<nat>) returns (ss: seq<Value>)
    requires v.VStruct? && ReadPath(v, p).Some?
    ensures ReadsThrough(v, p, ss, ReadPath(v, p).value)
    decreases |p|
  {
    if |p| == 1 {
      ss := [v];
    } else {
      var s := StructOf(v.fields[p[0]]).value;
      StructIff(v.fields[p[0]], s);
      var rest := ReadHasWay(s, p[1..]);
      ss := [v] + rest;
      forall j | 0 <= j < |p| ensures ss[j].VStruct? && p[j] < |ss[j].fields| {
        if j > 0 { assert ss[j] == rest[j - 1] && p[j] == p[1..][j - 1]; }
      }
      forall j | 0 <= j < |p| - 1 ensures PointsTo(ss[j].fields[p[j]], ss[j + 1]) {
        if j > 0 {
          var i := j - 1;
          assert PointsTo(rest[i].fields[p[1..][i]], rest[i + 1]);
        }
      }
    }
  }

  lemma {:induction false} WayReads(v: Value, p: seq<nat>, ss: seq<Value>, x: Value)
    requires ReadsThrough(v, p, ss, x)
    ensures v.VStruct? && ReadPath(v, p) == Some(x)
    decreases |p|
  {
    if |p| > 1 {
      assert PointsTo(ss[0].fields[p[0]], ss[0 + 1]);
      StructIff(v.fields[p[0]], ss[1]);
      var rest, q := ss[1..], p[1..];
      forall j | 0 <= j < |q| - 1 ensures PointsTo(rest[j].fields[q[j]], rest[j + 1]) {
        var i := j + 1;
        assert PointsTo(ss[i].fields[p[i]], ss[i + 1]);
      }
      WayReads(ss[1], q, rest, x);
    }
  }

  // ---- Empty values -----------------------------------------------------------------------------------

  predicate Nothing(y: Value) {
    y == VNil || y == VBool(false) || y == VString("") || y == VFloat(0.0) || y == VInt(0) || y == VList([])
    || y == VMap(map[])
  }

  /** false, "", 0, nil, and lists and maps without elements, also behind pointers. */
  ghost predicate Empty(x: Value) {
    exists y :: PointsTo(x, y) && Nothing(y)
  }

  lemma {:induction false} EmptyIff(x: Value)
    ensures IsEmpty(x) <==> Empty(x)
    decreases x
  {
    if x.VPtr? {
      EmptyIff(x.v);
      if y :| PointsTo(x.v, y) && Nothing(y) { assert PointsTo(x, y); }
    } else {
      assert PointsTo(x, x);
      NothingIff(x);
    }
  }

  lemma NothingIff(x: Value)
    requires !x.VPtr?
    ensures IsEmpty(x) <==> Nothing(x)
  {
    match x
    case VList(vs) => assert vs == [] ==> x == VList([]);
    case VMap(m) => assert m == map[] ==> x == VMap(map[]);
    case _ =>
  }

  // ---- Which entries live ---------------------------------------------------------------------------------

  predicate Different(es: seq<Entry>) {
    forall i, j :: 0 <= i < j < |es| ==> es[i] != es[j]
  }

  lemma {:induction false} LiveFromHas(es: seq<Entry>, i: nat, j: nat)
    requires i <= j < |es| && Wins(es, j)
    ensures es[j] in LiveFrom(es, i)
    decreases |es| - i
  {
    if i < j { LiveFromHas(es, i + 1, j); }
  }

  lemma LiveIff(es: seq<Entry>, e: Entry)
    requires Different(es)
    ensures e in Live(es) <==> e in es && forall f :: f in es && f != e && f.key == e.key ==> Beats(e, f)
  {
    if e in Live(es) {
      LiveFromWins(es, 0);
      var j :| 0 <= j < |es| && es[j] == e && Wins(es, j);
      forall f | f in es && f != e && f.key == e.key ensures Beats(e, f) {
        var i :| 0 <= i < |es| && es[i] == f;
        assert i != j;
      }
    }
    if e in es && forall f :: f in es && f != e && f.key == e.key ==> Beats(e, f) {
      var j :| 0 <= j < |es| && es[j] == e;
      forall i | 0 <= i < |es| && i != j && es[i].key == e.key ensures Beats(e, es[i]) {
        assert es[i] != e by { if i < j { assert es[i] != es[j]; } else { assert es[j] != es[i]; } }
      }
      LiveFromHas(es, 0, j);
    }
  }

  /** A visible field of struct `id`: declared, or promoted through embeds. */
  ghost predicate FieldOf(defs: Defs, id: nat, e: Entry) {
    exists ids :: EntryFor(defs, id, e, ids)
  }

  /** No other visible field takes its key: any other with that key lies deeper, or as deep and
      untagged while this one is tagged. */
  ghost predicate Prevails(defs: Defs, id: nat, e: Entry) {
    && FieldOf(defs, id, e)
    && forall f :: FieldOf(defs, id, f) && f != e && f.key == e.key ==>
         e.depth < f.depth || (e.depth == f.depth && e.tagged && !f.tagged)
  }

  lemma FlatDifferent(defs: Defs, id: nat)
    requires DefsOk(defs) && id < |defs|
    ensures Different(Flat(defs, id))
  {
    hide Flat;
    forall i, j | 0 <= i < j < |Flat(defs, id)| ensures Flat(defs, id)[i] != Flat(defs, id)[j] {
      FlatInOrder(defs, id, i, j);
    }
  }

  lemma PrevailsIff(defs: Defs, id: nat, e: Entry)
    requires DefsOk(defs) && id < |defs|
    ensures Prevails(defs, id, e) <==> e in Live(Flat(defs, id))
  {
    hide Flat, Live, EntryFor;
    FlatDifferent(defs, id);
    LiveIff(Flat(defs, id), e);
    forall f ensures FieldOf(defs, id, f) <==> f in Flat(defs, id) { FlatIff(defs, id, f); }
  }

  // ---- The members ------------------------------------------------------------------------------------------

  /** The field is written: nothing on the way to it is nil, and it is not omitted for being empty. */
  ghost predicate Writes(defs: Defs, v: Value, id: nat, e: Entry, x: Value) {
    && Prevails(defs, id, e)
    && (exists ss :: ReadsThrough(v, e.path, ss, x))
    && !(e.omit && Empty(x))
  }

  lemma WritesIff(defs: Defs, v: Value, id: nat, e: Entry, x: Value)
    requires DefsOk(defs) && id < |defs| && v.VStruct?
    ensures Writes(defs, v, id, e, x) <==> e in Live(Flat(defs, id)) && Visible(e, v) && ReadPath(v, e.path) == Some(x)
  {
    hide Prevails, Live, Flat, ReadsThrough, Empty, ReadPath;
    PrevailsIff(defs, id, e);
    EmptyIff(x);
    if ss :| ReadsThrough(v, e.path, ss, x) { WayReads(v, e.path, ss, x); }
    if ReadPath(v, e.path) == Some(x) { var ss := ReadHasWay(v, e.path); }
  }

  /** A struct is written as the object with exactly these members. */
  lemma MemberIff(defs: Defs, v: Value, id: nat, key: string, j: Tree)
    requires DefsOk(defs) && id < |defs| && v.VStruct? && v.id == id
    ensures Encode(defs, v).JObject?
    ensures key in Encode(defs, v).m && Encode(defs, v).m[key] == j
      <==> exists e, x :: Writes(defs, v, id, e, x) && e.key == key && Encode(defs, x) == j
  {
    hide Prevails, Flat, ReadsThrough, Empty, ReadPath, Writes, Visible, Live, Members;
    var es := Live(Flat(defs, id));
    assert DistinctKeys(es) by { LiveDistinct(Flat(defs, id)); }
    MembersOf(defs, v, es);
    var m := Members(defs, v, es);
    assert Encode(defs, v) == JObject(m);
    if key in m {
      var i :| 0 <= i < |es| && es[i].key == key;
      assert Visible(es[i], v);
      var x := VisibleValue(es[i], v);
      WritesIff(defs, v, id, es[i], x);
      assert m[key] == Encode(defs, x);
    }
    if e, x :| Writes(defs, v, id, e, x) && e.key == key && Encode(defs, x) == j {
      WritesIff(defs, v, id, e, x);
      var i :| 0 <= i < |es| && es[i] == e;
      assert Visible(es[i], v) && m[es[i].key] == Encode(defs, ReadPath(v, es[i].path).value);
    }
  }

  lemma LiveDistinct(es: seq<Entry>)
    ensures DistinctKeys(Live(es))
  {
    LiveKeysDistinct(es, 0);
  }

  lemma VisibleValue(e: Entry, v: Value) returns (x: Value)
    requires v.VStruct? && Visible(e, v)
    ensures ReadPath(v, e.path) == Some(x)
  {
    x := ReadPath(v, e.path).value;
  }

  // ---- Whole values -------------------------------------------------------------------------------------------

  /** The tree spells the value: null for nil, scalars as they are, pointers looked through, lists element
      by element, maps entry by entry, and structs by the fields that are written. */
  ghost predicate Spells(defs: Defs, v: Value, j: Tree)
    decreases v
  {
    match v
    case VNil => j == JNull
    case VBool(b) => j == JBool(b)
    case VString(s) => j == JString(s)
    case VFloat(r) => j == JNum(r)
    case VInt(i) => j == JNum(i as real)
    case VPtr(w) => Spells(defs, w, j)
    case VList(vs) => j.JList? && |j.ts| == |vs| && forall k :: 0 <= k < |vs| ==> Spells(defs, vs[k], j.ts[k])
    case VMap(m) => j.JObject? && j.m.Keys == m.Keys && forall k :: k in m.Keys ==> Spells(defs, m[k], j.m[k])
    case VStruct(id, _) =>
      && j.JObject?
      && (forall key :: key in j.m.Keys ==> exists e, x :: Writes(defs, v, id, e, x) && e.key == key)
      && forall e, x :: x < v && Writes(defs, v, id, e, x) ==> e.key in j.m.Keys && Spells(defs, x, j.m[e.key])
  }

  /** What is written lies inside the struct. */
  lemma WrittenInside(defs: Defs, v: Value, id: nat, e: Entry, x: Value)
    requires DefsOk(defs) && id < |defs| && v.VStruct? && Writes(defs, v, id, e, x)
    ensures x < v
  {
    hide Prevails, Empty, ReadsThrough;
    var ss :| ReadsThrough(v, e.path, ss, x);
    WayReads(v, e.path, ss, x);
  }

  lemma MemberHas(defs: Defs, v: Value, key: string) returns (e: Entry, x: Value)
    requires DefsOk(defs) && v.VStruct? && v.id < |defs| && Encode(defs, v).JObject? && key in Encode(defs, v).m
    ensures Writes(defs, v, v.id, e, x) && e.key == key && Encode(defs, v).m[key] == Encode(defs, x)
  {
    hide Writes, Encode;
    MemberIff(defs, v, v.id, key, Encode(defs, v).m[key]);
    e, x :| Writes(defs, v, v.id, e, x) && e.key == key && Encode(defs, x) == Encode(defs, v).m[key];
  }

  lemma WriteMember(defs: Defs, v: Value, e: Entry, x: Value)
    requires DefsOk(defs) && v.VStruct? && v.id < |defs| && Writes(defs, v, v.id, e, x)
    ensures var t := Encode(defs, v); t.JObject? && e.key in t.m && t.m[e.key] == Encode(defs, x)
  {
    hide Writes, Encode;
    MemberIff(defs, v, v.id, e.key, Encode(defs, x));
  }

  lemma {:induction false} ListSpelled(defs: Defs, v: Value, j: Tree)
    requires DefsOk(defs) && v.VList?
    ensures Spells(defs, v, j) <==> j == Encode(defs, v)
    decreases v, 0
  {
    var vs, e := v.vs, Encode(defs, v);
    forall k, u | 0 <= k < |vs| ensures Spells(defs, vs[k], u) <==> u == Encode(defs, vs[k]) {
      EncodeIff(defs, vs[k], u);
    }
    assert |e.ts| == |vs| && forall k :: 0 <= k < |vs| ==> e.ts[k] == Encode(defs, vs[k]);
    if Spells(defs, v, j) {
      forall k | 0 <= k < |vs| ensures j.ts[k] == e.ts[k] { EncodeIff(defs, vs[k], j.ts[k]); }
      assert j.ts == e.ts;
    }
  }

  lemma {:induction false} MapSpelled(defs: Defs, v: Value, j: Tree)
    requires DefsOk(defs) && v.VMap?
    ensures Spells(defs, v, j) <==> j == Encode(defs, v)
    decreases v, 0
  {
    var m, e := v.m, Encode(defs, v);
    forall k, u | k in m ensures Spells(defs, m[k], u) <==> u == Encode(defs, m[k]) { EncodeIff(defs, m[k], u); }
    assert e.m.Keys == m.Keys && forall k :: k in m ==> e.m[k] == Encode(defs, m[k]);
    if Spells(defs, v, j) {
      forall k | k in j.m ensures k in e.m && j.m[k] == e.m[k] {
        assert k in j.m.Keys && k in m.Keys;
        EncodeIff(defs, m[k], j.m[k]);
      }
      SameObject(j.m, e.m);
    }
  }

  lemma SameObject<K, V>(a: map<K, V>, b: map<K, V>)
    requires a.Keys == b.Keys && forall k :: k in a ==> k in b && a[k] == b[k]
    ensures a == b
  {
  }

  lemma {:induction false} StructSpelled(defs: Defs, v: Value, j: Tree)
    requires DefsOk(defs) && v.VStruct? && v.id < |defs|
    ensures Spells(defs, v, j) <==> j == Encode(defs, v)
    decreases v, 0
  {
    hide Writes, Encode;
    var id := v.id;
    assert Encode(defs, v).JObject? by { MemberIff(defs, v, id, "", JNull); }
    var m := Encode(defs, v).m;
    if Spells(defs, v, j) {
      forall key | key in j.m ensures key in m && j.m[key] == m[key] {
        var e, x :| Writes(defs, v, id, e, x) && e.key == key;
        WrittenInside(defs, v, id, e, x);
        WriteMember(defs, v, e, x);
        EncodeIff(defs, x, j.m[key]);
      }
      forall key | key in m ensures key in j.m {
        var e, x := MemberHas(defs, v, key);
        WrittenInside(defs, v, id, e, x);
      }
      assert j.m.Keys == m.Keys;
      SameObject(j.m, m);
    }
    if j == Encode(defs, v) {
      forall key | key in j.m.Keys ensures exists e, x :: Writes(defs, v, id, e, x) && e.key == key {
        var e, x := MemberHas(defs, v, key);
      }
      forall e, x | x < v && Writes(defs, v, id, e, x) ensures e.key in j.m.Keys && Spells(defs, x, j.m[e.key]) {
        WriteMember(defs, v, e, x);
        EncodeIff(defs, x, Encode(defs, x));
      }
    }
  }

  /** A value is written as the one tree that spells it. */
  lemma {:induction false} EncodeIff(defs: Defs, v: Value, j: Tree)
    requires DefsOk(defs)
    ensures Spells(defs, v, j) <==> j == Encode(defs, v)
    decreases v, 1
  {
    match v
    case VPtr(w) => EncodeIff(defs, w, j);
    case VList(_) => ListSpelled(defs, v, j);
    case VMap(_) => MapSpelled(defs, v, j);
    case VStruct(id, _) => if id < |defs| { StructSpelled(defs, v, j); } else { Undeclared(defs, v, j); }
    case _ =>
  }

  /** A struct without a declaration has no members. */
  lemma NoField(defs: Defs, id: nat, e: Entry)
    ensures FieldOf(defs, id, e) ==> id < |defs|
  {
  }

  lemma Undeclared(defs: Defs, v: Value, j: Tree)
    requires DefsOk(defs) && v.VStruct? && v.id >= |defs|
    ensures Spells(defs, v, j) <==> j == Encode(defs, v)
  {
    hide FieldOf, ReadsThrough, Empty;
    forall e, x ensures !Writes(defs, v, v.id, e, x) { NoField(defs, v.id, e); }
    if Spells(defs, v, j) { assert j.m.Keys == {} && j.m == map[]; }
  }
}
