/** Declared types and the JSON-visible fields of a struct: declared fields and fields
    promoted through embeds, reduced by Go's dominance rule. */
module JsonTypes {
  datatype Type =
    | TBool
    | TString
    | TFloat
    | TInt(bits: nat, signed: bool)
    | TAny                              // an interface type
    | TPtr(elem: Type)
    | TSlice(elem: Type)
    | TArray(n: nat, elem: Type)
    | TMap(elem: Type)                  // string keys
    | TStruct(id: nat)

  /** A declared field. key and tagged: its JSON key and whether a tag gave it. skip: invisible,
      by a "-" tag or because it is unexported and no struct embed. */
  datatype Field = Field(key: string, tagged: bool, omit: bool, skip: bool, embedded: bool, typ: Type)

  /** The struct declarations, by id. */
  type Defs = seq<seq<Field>>

  /** The number of the highest struct declaration `t` contains by value, plus one. */
  function ByValue(t: Type): nat {
    match t
    case TStruct(id) => id + 1
    case TArray(_, e) => ByValue(e)
    case _ => 0
  }

  predicate Known(defs: Defs, t: Type) {
    match t
    case TStruct(id) => id < |defs|
    case TPtr(e) => Known(defs, e)
    case TSlice(e) => Known(defs, e)
    case TArray(_, e) => Known(defs, e)
    case TMap(e) => Known(defs, e)
    case _ => true
  }

  /** Go's own rule that no struct contains itself by value, with the declarations numbered
      accordingly; pointers, slices and maps may refer to any declaration. An embedded struct
      is a T or a *T. */
  predicate DefsOk(defs: Defs) {
    forall i, k :: 0 <= i < |defs| && 0 <= k < |defs[i]| ==>
      Known(defs, defs[i][k].typ) && ByValue(defs[i][k].typ) <= i
      && (defs[i][k].embedded && Peel(defs[i][k].typ).TStruct? ==>
            defs[i][k].typ.TStruct? || (defs[i][k].typ.TPtr? && defs[i][k].typ.elem.TStruct?))
  }

  /** A type with its pointer levels peeled off. */
  function Peel(t: Type): (r: Type)
    ensures !r.TPtr?
  {
    if t.TPtr? then Peel(t.elem) else t
  }

  lemma PeelKnown(defs: Defs, t: Type)
    requires Known(defs, t)
    ensures Known(defs, Peel(t))
  {
  }

  /** One JSON-visible field: its key, the index path that reaches it through embeds, how many
      embeds that is, and the declared type of the leaf. */
  datatype Entry = Entry(key: string, path: seq<nat>, tagged: bool, depth: nat, omit: bool, typ: Type)

  // ---- Flattening ------------------------------------------------------------------------

  /** An embed whose fields promote: anonymous, untagged, of struct type up to pointers. */
  predicate Promotes(f: Field) {
    f.embedded && !f.tagged && Peel(f.typ).TStruct?
  }

  /** The ids not on the path of embeds being walked. */
  function Left(defs: Defs, live: set<nat>): set<nat> {
    set i: nat | i < |defs| && i !in live
  }

  /** The visible fields of struct `id`, with each embed expanded in place. A struct already on
      the path of embeds adds nothing. */
  function Fields(defs: Defs, id: nat, prefix: seq<nat>, depth: nat, live: set<nat>): seq<Entry>
    requires DefsOk(defs) && id < |defs|
    decreases Left(defs, live), 1, 0
  {
    if id in live then []
    else
      assert id in Left(defs, live) && id !in Left(defs, live + {id});
      FieldsFrom(defs, id, 0, prefix, depth, live + {id})
  }

  function FieldsFrom(defs: Defs, id: nat, k: nat, prefix: seq<nat>, depth: nat, live: set<nat>): seq<Entry>
    requires DefsOk(defs) && id < |defs| && k <= |defs[id]|
    decreases Left(defs, live), 2, |defs[id]| - k
  {
    if k == |defs[id]| then []
    else FieldEntries(defs, id, k, prefix, depth, live) + FieldsFrom(defs, id, k + 1, prefix, depth, live)
  }

  function FieldEntries(defs: Defs, id: nat, k: nat, prefix: seq<nat>, depth: nat, live: set<nat>): seq<Entry>
    requires DefsOk(defs) && id < |defs| && k < |defs[id]|
    decreases Left(defs, live), 2, 0
  {
    var f := defs[id][k];
    if f.skip then []
    else if Promotes(f) then
      PeelKnown(defs, f.typ);
      Fields(defs, Peel(f.typ).id, prefix + [k], depth + 1, live)
    else [Entry(f.key, prefix + [k], f.tagged, depth, f.omit, f.typ)]
  }

  function Flat(defs: Defs, id: nat): seq<Entry>
    requires DefsOk(defs) && id < |defs|
  {
    Fields(defs, id, [], 0, {})
  }

  /** An index path that crosses promoting embeds and ends at a visible field that does not promote. */
  predicate PathOk(defs: Defs, id: nat, p: seq<nat>)
    requires DefsOk(defs)
    decreases |p|
  {
    id < |defs| && p != [] && p[0] < |defs[id]| && !defs[id][p[0]].skip &&
    (if |p| == 1 then !Promotes(defs[id][p[0]])
     else Promotes(defs[id][p[0]]) && PathOk(defs, Peel(defs[id][p[0]].typ).id, p[1..]))
  }

  function Leaf(defs: Defs, id: nat, p: seq<nat>): (f: Field)
    requires DefsOk(defs) && PathOk(defs, id, p)
    ensures Known(defs, f.typ)
    decreases |p|
  {
    if |p| == 1 then defs[id][p[0]] else Leaf(defs, Peel(defs[id][p[0]].typ).id, p[1..])
  }

  /** The entry describes the field its path leads to, one embed per hop. */
  predicate EntryOk(defs: Defs, id: nat, e: Entry, p: seq<nat>)
    requires DefsOk(defs)
  {
    PathOk(defs, id, p) &&
    var f := Leaf(defs, id, p);
    e.key == f.key && e.tagged == f.tagged && e.omit == f.omit && e.typ == f.typ
  }

  predicate AllOk(defs: Defs, id: nat, es: seq<Entry>, prefix: seq<nat>, depth: nat)
    requires DefsOk(defs)
  {
    forall k :: 0 <= k < |es| ==>
      prefix <= es[k].path && EntryOk(defs, id, es[k], es[k].path[|prefix|..])
      && es[k].depth == depth + |es[k].path| - |prefix| - 1
  }

  lemma {:induction false} FieldsOk(defs: Defs, id: nat, prefix: seq<nat>, depth: nat, live: set<nat>)
    requires DefsOk(defs) && id < |defs|
    ensures AllOk(defs, id, Fields(defs, id, prefix, depth, live), prefix, depth)
    decreases Left(defs, live), 1, 0
  {
    if id !in live {
      assert id in Left(defs, live) && id !in Left(defs, live + {id});
      FieldsFromOk(defs, id, 0, prefix, depth, live + {id});
    }
  }

  lemma {:induction false} FieldsFromOk(defs: Defs, id: nat, k: nat, prefix: seq<nat>, depth: nat, live: set<nat>)
    requires DefsOk(defs) && id < |defs| && k <= |defs[id]|
    ensures AllOk(defs, id, FieldsFrom(defs, id, k, prefix, depth, live), prefix, depth)
    decreases Left(defs, live), 2, |defs[id]| - k
  {
    if k < |defs[id]| {
      FieldEntriesOk(defs, id, k, prefix, depth, live);
      FieldsFromOk(defs, id, k + 1, prefix, depth, live);
    }
  }

  lemma {:induction false} FieldEntriesOk(defs: Defs, id: nat, k: nat, prefix: seq<nat>, depth: nat, live: set<nat>)
    requires DefsOk(defs) && id < |defs| && k < |defs[id]|
    ensures AllOk(defs, id, FieldEntries(defs, id, k, prefix, depth, live), prefix, depth)
    decreases Left(defs, live), 2, 0
  {
    var f, es := defs[id][k], FieldEntries(defs, id, k, prefix, depth, live);
    if !f.skip && Promotes(f) {
      PeelKnown(defs, f.typ);
      FieldsOk(defs, Peel(f.typ).id, prefix + [k], depth + 1, live);
      forall i | 0 <= i < |es| ensures prefix <= es[i].path && EntryOk(defs, id, es[i], es[i].path[|prefix|..]) {
        var p := es[i].path[|prefix|..];
        assert p[1..] == es[i].path[|prefix + [k]|..] && p[0] == k;
      }
    } else if !f.skip {
      assert (prefix + [k])[|prefix|..] == [k];
    }
  }

  // ---- Dominance ---------------------------------------------------------------------------

  predicate Beats(a: Entry, b: Entry) {
    a.depth < b.depth || (a.depth == b.depth && a.tagged && !b.tagged)
  }

  /** Entry `i` wins its key: it beats every other entry with that key. */
  predicate Wins(es: seq<Entry>, i: nat)
    requires i < |es|
  {
    forall j :: 0 <= j < |es| && j != i && es[j].key == es[i].key ==> Beats(es[i], es[j])
  }

  /** The entries that win their key, in order. */
  function Live(es: seq<Entry>): seq<Entry> {
    LiveFrom(es, 0)
  }

  function LiveFrom(es: seq<Entry>, i: nat): seq<Entry>
    requires i <= |es|
    decreases |es| - i
  {
    if i == |es| then [] else (if Wins(es, i) then [es[i]] else []) + LiveFrom(es, i + 1)
  }

  lemma {:induction false} LiveFromWins(es: seq<Entry>, i: nat)
    requires i <= |es|
    ensures forall e :: e in LiveFrom(es, i) ==> exists j :: i <= j < |es| && es[j] == e && Wins(es, j)
    decreases |es| - i
  {
    if i < |es| {
      LiveFromWins(es, i + 1);
      forall e | e in LiveFrom(es, i) ensures exists j :: i <= j < |es| && es[j] == e && Wins(es, j) {
        if e !in LiveFrom(es, i + 1) {
          assert e == es[i] && Wins(es, i);
        }
      }
    }
  }

  /** The entries a struct encodes and decodes through are well formed. */
  lemma LiveOk(defs: Defs, id: nat)
    requires DefsOk(defs) && id < |defs|
    ensures forall k :: 0 <= k < |Live(Flat(defs, id))| ==>
      EntryOk(defs, id, Live(Flat(defs, id))[k], Live(Flat(defs, id))[k].path)
  {
    var es, top: seq<nat> := Flat(defs, id), [];
    FieldsOk(defs, id, top, 0, {});
    LiveFromWins(es, 0);
    forall k | 0 <= k < |Live(es)| ensures EntryOk(defs, id, Live(es)[k], Live(es)[k].path) {
      assert Live(es)[k] in LiveFrom(es, 0);
      var j :| 0 <= j < |es| && es[j] == Live(es)[k];
      assert es[j].path[|top|..] == es[j].path;
    }
  }

  predicate DistinctKeys(es: seq<Entry>) {
    forall i, j :: 0 <= i < j < |es| ==> es[i].key != es[j].key
  }

  /** At most one entry survives per key. */
  lemma {:induction false} LiveKeysDistinct(es: seq<Entry>, i: nat)
    requires i <= |es|
    ensures DistinctKeys(LiveFrom(es, i))
    decreases |es| - i
  {
    if i < |es| {
      LiveKeysDistinct(es, i + 1);
      LiveFromWins(es, i + 1);
      if Wins(es, i) {
        forall e | e in LiveFrom(es, i + 1) ensures e.key != es[i].key {
          var j :| i + 1 <= j < |es| && es[j] == e && Wins(es, j);
          assert e.key == es[i].key ==> Beats(es[i], es[j]) && Beats(es[j], es[i]);
        }
      }
    }
  }
}
