/** The codec's loops as the program runs them, proved against the functions the laws are
    about: dominance over key groups, flattening with a path set, decoding a struct member
    by member. */
module JsonLoops {
  import opened Basics
  import opened JsonTypes
  import opened JsonCodec

  // ---- jsonDominant ----------------------------------------------------------------------

  predicate Ascending(g: seq<nat>, n: nat) {
    (forall k :: 0 <= k < |g| ==> g[k] < n) && (forall a, b :: 0 <= a < b < |g| ==> g[a] < g[b])
  }

  /** The entries of one key among the first `n`, in order. */
  function Group(es: seq<Entry>, key: string, n: nat): (g: seq<nat>)
    requires n <= |es|
    ensures Ascending(g, n)
    ensures forall k :: 0 <= k < |g| ==> es[g[k]].key == key
  {
    if n == 0 then [] else Group(es, key, n - 1) + if es[n - 1].key == key then [n - 1] else []
  }

  lemma {:induction false} InGroup(es: seq<Entry>, key: string, n: nat, i: nat)
    requires i < n <= |es| && es[i].key == key
    ensures i in Group(es, key, n)
    decreases n
  {
    if i < n - 1 { InGroup(es, key, n - 1, i); }
  }

  predicate BeatsRest(es: seq<Entry>, cand: seq<nat>, i: nat)
    requires i < |es| && Ascending(cand, |es|)
  {
    forall k :: 0 <= k < |cand| && cand[k] != i ==> Beats(es[i], es[cand[k]])
  }

  /** The candidates that pass a test, in order. */
  function Keep(es: seq<Entry>, cand: seq<nat>, test: Entry -> bool): (r: seq<nat>)
    requires Ascending(cand, |es|)
    ensures Ascending(r, |es|)
    ensures forall i :: i in r <==> i in cand && test(es[i])
  {
    if cand == [] then []
    else
      var n := |cand| - 1;
      var init := Keep(es, cand[..n], test);
      assert cand == cand[..n] + [cand[n]];
      assert forall k :: 0 <= k < |init| ==> init[k] in cand[..n] && init[k] < cand[n];
      init + if test(es[cand[n]]) then [cand[n]] else []
  }

  method MinDepth(es: seq<Entry>, cand: seq<nat>) returns (minD: nat)
    requires cand != [] && Ascending(cand, |es|)
    ensures forall k :: 0 <= k < |cand| ==> es[cand[k]].depth >= minD
    ensures exists k :: 0 <= k < |cand| && es[cand[k]].depth == minD
  {
    minD := es[cand[0]].depth;
    for k := 1 to |cand|
      invariant forall a :: 0 <= a < k ==> es[cand[a]].depth >= minD
      invariant exists a :: 0 <= a < k && es[cand[a]].depth == minD
    {
      if es[cand[k]].depth < minD {
        minD := es[cand[k]].depth;
      }
    }
  }

  method Filter(es: seq<Entry>, cand: seq<nat>, test: Entry -> bool) returns (keep: seq<nat>)
    requires Ascending(cand, |es|)
    ensures keep == Keep(es, cand, test)
  {
    keep := [];
    for k := 0 to |cand|
      invariant keep == Keep(es, cand[..k], test)
    {
      assert cand[..k + 1][..k] == cand[..k];
      if test(es[cand[k]]) {
        keep := keep + [cand[k]];
      }
    }
    assert cand[..|cand|] == cand;
  }

  /** The one candidate left after keeping the shallowest, then the tagged among them. */
  method Winner(es: seq<Entry>, cand: seq<nat>) returns (w: Option<nat>)
    requires cand != [] && Ascending(cand, |es|)
    ensures w.Some? ==> w.value in cand && BeatsRest(es, cand, w.value)
    ensures w.None? ==> forall k :: 0 <= k < |cand| ==> !BeatsRest(es, cand, cand[k])
  {
    var minD := MinDepth(es, cand);
    var keep := Filter(es, cand, (e: Entry) => e.depth == minD);
    var tg := Filter(es, keep, (e: Entry) => e.tagged);
    ghost var all := keep;
    if |tg| > 0 {
      keep := tg;
    }
    LastOneStanding(es, cand, minD, all, keep);
    w := if |keep| == 1 then Some(keep[0]) else None;
  }

  lemma LastOneStanding(es: seq<Entry>, cand: seq<nat>, minD: nat, all: seq<nat>, keep: seq<nat>)
    requires Ascending(cand, |es|) && Ascending(keep, |es|) && Ascending(all, |es|)
    requires forall k :: 0 <= k < |cand| ==> es[cand[k]].depth >= minD
    requires exists k :: 0 <= k < |cand| && es[cand[k]].depth == minD
    requires forall i :: i in all <==> i in cand && es[i].depth == minD
    requires (keep == all && forall i :: i in all ==> !es[i].tagged)
             || (keep != [] && forall i :: i in keep <==> i in all && es[i].tagged)
    ensures |keep| == 1 ==> keep[0] in cand && BeatsRest(es, cand, keep[0])
    ensures |keep| != 1 ==> forall k :: 0 <= k < |cand| ==> !BeatsRest(es, cand, cand[k])
  {
    var a :| 0 <= a < |cand| && es[cand[a]].depth == minD;
    assert cand[a] in all;
    if |keep| == 1 {
      forall k | 0 <= k < |cand| && cand[k] != keep[0] ensures Beats(es[keep[0]], es[cand[k]]) {
        assert cand[k] in cand && keep[0] in keep;
      }
    } else {
      forall k | 0 <= k < |cand| ensures !BeatsRest(es, cand, cand[k]) {
        var j := if keep[0] == cand[k] then keep[1] else keep[0];
        assert j in keep && j in all && j in cand && cand[k] in cand;
        var b :| 0 <= b < |cand| && cand[b] == j;
        assert !Beats(es[cand[k]], es[cand[b]]);
      }
    }
  }

  predicate KeysSeen(es: seq<Entry>, n: nat, keys: set<string>)
    requires n <= |es|
  {
    forall k :: 0 <= k < n ==> es[k].key in keys
  }

  predicate Grouped(es: seq<Entry>, n: nat, byKey: map<string, seq<nat>>)
    requires n <= |es|
  {
    forall key :: key in byKey ==> byKey[key] == Group(es, key, n)
  }

  predicate NonEmpty(byKey: map<string, seq<nat>>) {
    forall key :: key in byKey ==> byKey[key] != []
  }

  lemma StillNonEmpty(byKey: map<string, seq<nat>>, key: string, group: seq<nat>)
    requires NonEmpty(byKey) && group != []
    ensures NonEmpty(byKey[key := group])
  {
  }

  lemma NoGroups(es: seq<Entry>)
    ensures Grouped(es, 0, map[]) && NonEmpty(map[]) && forall keys :: KeysSeen(es, 0, keys)
  {
  }

  method GroupByKey(es: seq<Entry>) returns (byKey: map<string, seq<nat>>)
    ensures Grouped(es, |es|, byKey) && KeysSeen(es, |es|, byKey.Keys)
    ensures NonEmpty(byKey)
  {
    hide Grouped, KeysSeen, NonEmpty, Group;
    byKey := map[];
    NoGroups(es);
    for i := 0 to |es|
      invariant Grouped(es, i, byKey) && KeysSeen(es, i, byKey.Keys)
      invariant NonEmpty(byKey)
    {
      var key := es[i].key;
      var group := (if key in byKey then byKey[key] else []) + [i];
      GroupOne(es, i, byKey, group);
      GroupStep(es, i, byKey, group);
      StillNonEmpty(byKey, key, group);
      ghost var keys := byKey.Keys;
      byKey := byKey[key := group];
      KeySeen(es, i, keys, byKey.Keys);
    }
  }

  lemma GroupOne(es: seq<Entry>, i: nat, byKey: map<string, seq<nat>>, group: seq<nat>)
    requires i < |es| && Grouped(es, i, byKey) && KeysSeen(es, i, byKey.Keys)
    requires group == (if es[i].key in byKey then byKey[es[i].key] else []) + [i]
    ensures group == Group(es, es[i].key, i + 1)
  {
    var key := es[i].key;
    if key in byKey {
      assert byKey[key] == Group(es, key, i);
    } else {
      forall k | 0 <= k < i ensures es[k].key != key {
        assert es[k].key in byKey.Keys;
      }
      NewGroup(es, key, i);
    }
  }

  lemma KeySeen(es: seq<Entry>, i: nat, keys: set<string>, next: set<string>)
    requires i < |es| && KeysSeen(es, i, keys) && keys <= next && es[i].key in next
    ensures KeysSeen(es, i + 1, next)
  {
  }

  lemma GroupStep(es: seq<Entry>, i: nat, byKey: map<string, seq<nat>>, group: seq<nat>)
    requires i < |es| && Grouped(es, i, byKey) && group == Group(es, es[i].key, i + 1)
    ensures Grouped(es, i + 1, byKey[es[i].key := group])
  {
    var next := byKey[es[i].key := group];
    forall key | key in next ensures next[key] == Group(es, key, i + 1) {
      if key != es[i].key {
        OtherGroup(es, key, i);
      }
    }
  }

  lemma {:induction false} NewGroup(es: seq<Entry>, key: string, n: nat)
    requires n <= |es| && forall k :: 0 <= k < n ==> es[k].key != key
    ensures Group(es, key, n) == []
    decreases n
  {
    if n > 0 {
      NewGroup(es, key, n - 1);
    }
  }

  lemma OtherGroup(es: seq<Entry>, key: string, i: nat)
    requires i < |es| && es[i].key != key
    ensures Group(es, key, i + 1) == Group(es, key, i)
  {
    assert Group(es, key, i) + [] == Group(es, key, i);
  }

  method Dominant(es: seq<Entry>) returns (live: seq<bool>)
    ensures |live| == |es| && forall i :: 0 <= i < |es| ==> live[i] == Wins(es, i)
  {
    var byKey := GroupByKey(es);
    live := seq(|es|, _ => false);
    var todo := byKey.Keys;
    while todo != {}
      invariant |live| == |es| && todo <= byKey.Keys
      invariant forall i :: 0 <= i < |es| ==> live[i] == (es[i].key !in todo && Wins(es, i))
      decreases todo
    {
      var key :| key in todo;
      ghost var cand := Group(es, key, |es|);
      var w := Winner(es, byKey[key]);
      GroupDecides(es, key, w);
      if w.Some? {
        live := live[w.value := true];
      }
      todo := todo - {key};
    }
  }

  /** The winner of its group, if any, is the one entry of that key that wins. */
  lemma GroupDecides(es: seq<Entry>, key: string, w: Option<nat>)
    requires var g := Group(es, key, |es|);
      if w.Some? then w.value in g && w.value < |es| && BeatsRest(es, g, w.value)
      else forall k :: 0 <= k < |g| ==> !BeatsRest(es, g, g[k])
    ensures forall i: nat :: i < |es| && es[i].key == key ==> (Wins(es, i) <==> w == Some(i))
  {
    var g := Group(es, key, |es|);
    forall i: nat | i < |es| && es[i].key == key ensures Wins(es, i) <==> w == Some(i) {
      InGroup(es, key, |es|, i);
      WinsItsGroup(es, key, i);
      if w.Some? && w.value != i {
        assert Beats(es[w.value], es[i]);
      }
    }
  }

  lemma WinsItsGroup(es: seq<Entry>, key: string, i: nat)
    requires i < |es| && es[i].key == key
    ensures Wins(es, i) <==> BeatsRest(es, Group(es, key, |es|), i)
  {
    if BeatsRest(es, Group(es, key, |es|), i) {
      forall j: nat | j < |es| && j != i && es[j].key == key ensures Beats(es[i], es[j]) {
        InGroup(es, key, |es|, j);
      }
    }
  }

  method MarshalLive(es: seq<Entry>) returns (out: seq<Entry>)
    ensures out == Live(es)
  {
    var live := Dominant(es);
    out := [];
    for i := 0 to |es|
      invariant out + LiveFrom(es, i) == Live(es)
    {
      if live[i] {
        out := out + [es[i]];
      }
    }
  }

  // ---- jsonStructFields ---------------------------------------------------------------------

  /** The flattening walk: the output and the set of structs on the path of embeds. */
  class Flattener {
    const defs: Defs
    var out: seq<Entry>
    var seen: set<nat>

    constructor (defs: Defs)
      ensures this.defs == defs && out == [] && seen == {}
    {
      this.defs, out, seen := defs, [], {};
    }

    method Walk(id: nat, prefix: seq<nat>, depth: nat)
      requires DefsOk(defs) && id < |defs|
      modifies this
      ensures seen == old(seen) && out == old(out) + Fields(defs, id, prefix, depth, old(seen))
      decreases Left(defs, seen)
    {
      if id in seen {
        assert out == old(out) + [];
        return;
      }
      assert id in Left(defs, seen) && id !in Left(defs, seen + {id});
      seen := seen + {id};
      ghost var live := seen;
      for i := 0 to |defs[id]|
        invariant seen == live
        invariant out + FieldsFrom(defs, id, i, prefix, depth, live)
          == old(out) + FieldsFrom(defs, id, 0, prefix, depth, live)
      {
        var f := defs[id][i];
        ghost var before := out;
        if !f.skip {
          if Promotes(f) {
            PeelKnown(defs, f.typ);
            Walk(Peel(f.typ).id, prefix + [i], depth + 1);
          } else {
            out := out + [Entry(f.key, prefix + [i], f.tagged, depth, f.omit, f.typ)];
          }
        }
        assert out == before + FieldEntries(defs, id, i, prefix, depth, live);
        assert out + FieldsFrom(defs, id, i + 1, prefix, depth, live)
          == before + FieldsFrom(defs, id, i, prefix, depth, live);
      }
      assert FieldsFrom(defs, id, |defs[id]|, prefix, depth, live) == [];
      seen := seen - {id};
    }
  }

  method StructFields(defs: Defs, id: nat) returns (out: seq<Entry>)
    requires DefsOk(defs) && id < |defs|
    ensures out == Flat(defs, id)
  {
    var f := new Flattener(defs);
    f.Walk(id, [], 0);
    out := f.out;
  }

  // ---- jsonShape's struct case ----------------------------------------------------------------

  /** Decodes the members of an object one live entry at a time into a fresh struct. */
  method DecodeStruct(defs: Defs, j: Tree, id: nat) returns (d: Decoded)
    requires DefsOk(defs) && id < |defs| && j.JObject?
    ensures d == Decode(defs, j, TStruct(id))
  {
    var es := StructFields(defs, id);
    var live := MarshalLive(es);
    LiveOk(defs, id);
    var z, ok := Zero(defs, TStruct(id)), true;
    for i := 0 to |live|
      invariant Decoded(z, ok) == DecodeInto(defs, j, id, live[..i])
    {
      assert live[..i + 1][..i] == live[..i];
      var e := live[i];
      if e.key in j.m {
        var leaf := Decode(defs, j.m[e.key], e.typ);
        z, ok := SetPath(defs, z, id, e.path, leaf.v), ok && leaf.ok;
      }
    }
    assert live[..|live|] == live;
    d := Decoded(z, ok);
  }
}
