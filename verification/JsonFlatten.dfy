/** Which fields of a struct are JSON-visible, and in which order: the flattening walk against the ways
    down the embedded structs. */
module JsonFlatten {
  import opened JsonTypes

  // ---- Ways down the embeds ------------------------------------------------------------------------

  /** The field is an untagged embed of the struct, or of pointers to it. */
  predicate EmbedOf(f: Field, id: nat) {
    f.embedded && !f.tagged && Peel(f.typ) == TStruct(id)
  }

  ghost predicate NoEmbed(f: Field) {
    forall n: nat :: !EmbedOf(f, n)
  }

  /** A way down: at struct `ids[j]` field `p[j]` is taken, an embed of `ids[j + 1]`; the last field
      taken is a visible one and no such embed. */
  ghost predicate Descends(defs: Defs, id: nat, ids: seq<nat>, p: seq<nat>) {
    && |ids| == |p| > 0 && ids[0] == id
    && (forall j :: 0 <= j < |p| ==> ids[j] < |defs| && p[j] < |defs[ids[j]]| && !defs[ids[j]][p[j]].skip)
    && (forall j :: 0 <= j < |p| - 1 ==> EmbedOf(defs[ids[j]][p[j]], ids[j + 1]))
    && NoEmbed(defs[ids[|p| - 1]][p[|p| - 1]])
  }

  /** No struct is entered twice. */
  predicate Once(ids: seq<nat>) {
    forall i, j :: 0 <= i < j < |ids| ==> ids[i] != ids[j]
  }

  function Target(defs: Defs, ids: seq<nat>, p: seq<nat>): Field
    requires |ids| == |p| > 0 && ids[|p| - 1] < |defs| && p[|p| - 1] < |defs[ids[|p| - 1]]|
  {
    defs[ids[|p| - 1]][p[|p| - 1]]
  }

  predicate Outside(ids: seq<nat>, live: set<nat>) {
    forall j :: 0 <= j < |ids| ==> ids[j] !in live
  }

  lemma PromotesIff(f: Field)
    ensures Promotes(f) <==> exists n: nat :: EmbedOf(f, n)
  {
    if Promotes(f) { assert EmbedOf(f, Peel(f.typ).id); }
  }

  lemma DescendsRest(defs: Defs, id: nat, ids: seq<nat>, p: seq<nat>)
    requires Descends(defs, id, ids, p) && |p| > 1
    ensures Promotes(defs[id][p[0]]) && Peel(defs[id][p[0]].typ) == TStruct(ids[1])
    ensures Descends(defs, ids[1], ids[1..], p[1..])
  {
    assert EmbedOf(defs[ids[0]][p[0]], ids[0 + 1]);
    var ns, q := ids[1..], p[1..];
    forall j | 0 <= j < |q| - 1 ensures EmbedOf(defs[ns[j]][q[j]], ns[j + 1]) {
      var i := j + 1;
      assert EmbedOf(defs[ids[i]][p[i]], ids[i + 1]);
    }
  }

  lemma DescendsCons(defs: Defs, id: nat, k: nat, ids: seq<nat>, p: seq<nat>)
    requires id < |defs| && k < |defs[id]| && !defs[id][k].skip && p != [] && ids != []
    requires EmbedOf(defs[id][k], ids[0]) && Descends(defs, ids[0], ids, p)
    ensures Descends(defs, id, [id] + ids, [k] + p)
  {
    var ns, q := [id] + ids, [k] + p;
    forall j | 0 <= j < |q| ensures ns[j] < |defs| && q[j] < |defs[ns[j]]| && !defs[ns[j]][q[j]].skip {
      if j > 0 { assert ns[j] == ids[j - 1] && q[j] == p[j - 1]; }
    }
    forall j | 0 <= j < |q| - 1 ensures EmbedOf(defs[ns[j]][q[j]], ns[j + 1]) {
      if j > 0 {
        var i := j - 1;
        assert EmbedOf(defs[ids[i]][p[i]], ids[i + 1]);
      }
    }
    assert ns[|q| - 1] == ids[|p| - 1] && q[|q| - 1] == p[|p| - 1];
  }

  // ---- Every way has its entry -------------------------------------------------------------------------

  predicate HasPath(es: seq<Entry>, path: seq<nat>) {
    exists e :: e in es && e.path == path
  }

  lemma {:induction false} FieldsHave(defs: Defs, id: nat, prefix: seq<nat>, depth: nat, live: set<nat>, ids: seq<nat>,
      p: seq<nat>)
    requires DefsOk(defs) && id < |defs| && Descends(defs, id, ids, p) && Once(ids) && Outside(ids, live)
    ensures HasPath(Fields(defs, id, prefix, depth, live), prefix + p)
    decreases |p|
  {
    hide Descends, Outside, Once;
    assert id !in live && p[0] < |defs[id]| by { FirstHop(defs, id, ids, p, live); }
    EntriesHave(defs, id, prefix, depth, live + {id}, ids, p);
    FromHas(defs, id, 0, p[0], prefix, depth, live + {id}, prefix + p);
  }

  lemma FirstHop(defs: Defs, id: nat, ids: seq<nat>, p: seq<nat>, live: set<nat>)
    requires id < |defs| && Descends(defs, id, ids, p) && Outside(ids, live)
    ensures |ids| == |p| > 0 && ids[0] == id && id !in live && p[0] < |defs[id]| && !defs[id][p[0]].skip
  {
  }

  lemma {:induction false} EntriesHave(defs: Defs, id: nat, prefix: seq<nat>, depth: nat, live: set<nat>, ids: seq<nat>,
      p: seq<nat>)
    requires DefsOk(defs) && id < |defs| && Descends(defs, id, ids, p) && Once(ids) && p[0] < |defs[id]|
    requires id in live && Outside(ids, live - {id})
    ensures HasPath(FieldEntries(defs, id, p[0], prefix, depth, live), prefix + p)
    decreases |p|, 0
  {
    var f := defs[id][p[0]];
    PromotesIff(f);
    if |p| == 1 {
      assert prefix + [p[0]] == prefix + p;
      var e := Entry(f.key, prefix + [p[0]], f.tagged, depth, f.omit, f.typ);
      assert e in FieldEntries(defs, id, p[0], prefix, depth, live);
    } else {
      DescendsRest(defs, id, ids, p);
      PeelKnown(defs, f.typ);
      assert Outside(ids[1..], live) && Once(ids[1..]);
      assert prefix + [p[0]] + p[1..] == prefix + p;
      FieldsHave(defs, ids[1], prefix + [p[0]], depth + 1, live, ids[1..], p[1..]);
    }
  }

  lemma {:induction false} FromHas(defs: Defs, id: nat, k: nat, i: nat, prefix: seq<nat>, depth: nat, live: set<nat>,
      path: seq<nat>)
    requires DefsOk(defs) && id < |defs| && k <= i < |defs[id]|
    requires HasPath(FieldEntries(defs, id, i, prefix, depth, live), path)
    ensures HasPath(FieldsFrom(defs, id, k, prefix, depth, live), path)
    decreases i - k
  {
    hide FieldEntries;
    if k < i {
      FromHas(defs, id, k + 1, i, prefix, depth, live, path);
      var e :| e in FieldsFrom(defs, id, k + 1, prefix, depth, live) && e.path == path;
      assert e in FieldsFrom(defs, id, k, prefix, depth, live);
    } else {
      var e :| e in FieldEntries(defs, id, i, prefix, depth, live) && e.path == path;
      assert e in FieldsFrom(defs, id, k, prefix, depth, live);
    }
  }

  // ---- Every entry has its way -------------------------------------------------------------------------

  /** The entry describes the field at the end of the way. */
  ghost predicate Describes(defs: Defs, id: nat, e: Entry, prefix: seq<nat>, depth: nat, live: set<nat>, ids: seq<nat>,
      p: seq<nat>)
  {
    && Descends(defs, id, ids, p) && Once(ids) && Outside(ids, live) && e.path == prefix + p
    && var f := Target(defs, ids, p);
    e.key == f.key && e.tagged == f.tagged && e.omit == f.omit && e.typ == f.typ && e.depth == depth + |p| - 1
  }

  lemma {:induction false} FieldsDescribe(defs: Defs, id: nat, prefix: seq<nat>, depth: nat, live: set<nat>, e: Entry)
    returns (ids: seq<nat>, p: seq<nat>)
    requires DefsOk(defs) && id < |defs| && e in Fields(defs, id, prefix, depth, live)
    ensures Describes(defs, id, e, prefix, depth, live, ids, p)
    decreases Left(defs, live), 1, 0
  {
    hide Describes, FieldsFrom, FieldEntries;
    assert id in Left(defs, live) && id !in Left(defs, live + {id});
    var k := FromEntry(defs, id, 0, prefix, depth, live + {id}, e);
    ids, p := EntriesDescribe(defs, id, k, prefix, depth, live, e);
  }

  lemma {:induction false} FromEntry(defs: Defs, id: nat, k: nat, prefix: seq<nat>, depth: nat, live: set<nat>,
      e: Entry)
    returns (i: nat)
    requires DefsOk(defs) && id < |defs| && k <= |defs[id]| && e in FieldsFrom(defs, id, k, prefix, depth, live)
    ensures k <= i < |defs[id]| && e in FieldEntries(defs, id, i, prefix, depth, live)
    decreases |defs[id]| - k
  {
    hide FieldEntries;
    if e in FieldEntries(defs, id, k, prefix, depth, live) {
      i := k;
    } else {
      i := FromEntry(defs, id, k + 1, prefix, depth, live, e);
    }
  }

  lemma {:induction false} EntriesDescribe(defs: Defs, id: nat, k: nat, prefix: seq<nat>, depth: nat, live: set<nat>,
      e: Entry) returns (ids: seq<nat>, p: seq<nat>)
    requires DefsOk(defs) && id < |defs| && k < |defs[id]| && id !in live
    requires e in FieldEntries(defs, id, k, prefix, depth, live + {id})
    ensures Describes(defs, id, e, prefix, depth, live, ids, p)
    decreases Left(defs, live + {id}), 2, 0
  {
    var f := defs[id][k];
    PromotesIff(f);
    if Promotes(f) {
      PeelKnown(defs, f.typ);
      var ns, q := FieldsDescribe(defs, Peel(f.typ).id, prefix + [k], depth + 1, live + {id}, e);
      ids, p := [id] + ns, [k] + q;
      DescribesCons(defs, id, k, e, prefix, depth, live, ns, q);
    } else {
      ids, p := [id], [k];
      assert prefix + [k] == prefix + p;
    }
  }

  lemma DescribesCons(defs: Defs, id: nat, k: nat, e: Entry, prefix: seq<nat>, depth: nat, live: set<nat>, ns: seq<nat>,
      q: seq<nat>)
    requires id < |defs| && k < |defs[id]| && !defs[id][k].skip && id !in live && Promotes(defs[id][k])
    requires Describes(defs, Peel(defs[id][k].typ).id, e, prefix + [k], depth + 1, live + {id}, ns, q)
    ensures Describes(defs, id, e, prefix, depth, live, [id] + ns, [k] + q)
  {
    var ids, p := [id] + ns, [k] + q;
    assert EmbedOf(defs[id][k], ns[0]);
    DescendsCons(defs, id, k, ns, q);
    assert prefix + [k] + q == prefix + p;
    forall i, j | 0 <= i < j < |ids| ensures ids[i] != ids[j] {
      assert ids[j] == ns[j - 1] && ns[j - 1] !in live + {id};
      if i > 0 { assert ids[i] == ns[i - 1]; }
    }
    forall j | 0 <= j < |ids| ensures ids[j] !in live {
      if j > 0 { assert ids[j] == ns[j - 1] && ns[j - 1] !in live + {id}; }
    }
  }

  // ---- In order ----------------------------------------------------------------------------------------

  /** The paths part at some place, where the one takes an earlier field. */
  predicate Earlier(a: seq<nat>, b: seq<nat>) {
    exists i :: 0 <= i < |a| && i < |b| && a[..i] == b[..i] && a[i] < b[i]
  }

  predicate InOrder(es: seq<Entry>) {
    forall i, j :: 0 <= i < j < |es| ==> Earlier(es[i].path, es[j].path)
  }

  /** All paths go through field `k` or a later one of the struct at the end of the prefix. */
  predicate Through(es: seq<Entry>, prefix: seq<nat>, k: nat) {
    forall e :: e in es ==> prefix < e.path && e.path[|prefix|] >= k
  }

  lemma {:induction false} FieldsInOrder(defs: Defs, id: nat, prefix: seq<nat>, depth: nat, live: set<nat>)
    requires DefsOk(defs) && id < |defs|
    ensures InOrder(Fields(defs, id, prefix, depth, live)) && Through(Fields(defs, id, prefix, depth, live), prefix, 0)
    decreases Left(defs, live), 1, 0
  {
    hide FieldsFrom, Earlier;
    if id !in live {
      assert id in Left(defs, live) && id !in Left(defs, live + {id});
      FromInOrder(defs, id, 0, prefix, depth, live + {id});
    }
  }

  lemma {:induction false} FromInOrder(defs: Defs, id: nat, k: nat, prefix: seq<nat>, depth: nat, live: set<nat>)
    requires DefsOk(defs) && id < |defs| && k <= |defs[id]|
    ensures InOrder(FieldsFrom(defs, id, k, prefix, depth, live))
    ensures Through(FieldsFrom(defs, id, k, prefix, depth, live), prefix, k)
    decreases Left(defs, live), 2, |defs[id]| - k
  {
    hide FieldEntries, InOrder, Through;
    if k < |defs[id]| {
      var a, b := FieldEntries(defs, id, k, prefix, depth, live), FieldsFrom(defs, id, k + 1, prefix, depth, live);
      EntriesInOrder(defs, id, k, prefix, depth, live);
      FromInOrder(defs, id, k + 1, prefix, depth, live);
      Appended(a, b, prefix, k);
    } else {
      assert InOrder([]) && Through([], prefix, k) by { NothingInOrder(prefix, k); }
    }
  }

  lemma NothingInOrder(prefix: seq<nat>, k: nat)
    ensures InOrder([]) && Through([], prefix, k)
  {
  }

  predicate At(es: seq<Entry>, prefix: seq<nat>, k: nat) {
    forall e :: e in es ==> prefix < e.path && e.path[|prefix|] == k
  }

  lemma Appended(a: seq<Entry>, b: seq<Entry>, prefix: seq<nat>, k: nat)
    requires InOrder(a) && InOrder(b) && At(a, prefix, k) && Through(b, prefix, k + 1)
    ensures InOrder(a + b) && Through(a + b, prefix, k)
  {
    var c := a + b;
    assert forall e :: e in c <==> e in a || e in b;
    forall i, j | 0 <= i < j < |c| ensures Earlier(c[i].path, c[j].path) {
      if j < |a| {
        assert Earlier(a[i].path, a[j].path);
      } else if i >= |a| {
        assert Earlier(b[i - |a|].path, b[j - |a|].path);
      } else {
        assert a[i] in a && b[j - |a|] in b;
        var x, y, n := c[i].path, c[j].path, |prefix|;
        assert x[..n] == prefix == y[..n] && x[n] < y[n];
      }
    }
  }

  lemma {:induction false} EntriesInOrder(defs: Defs, id: nat, k: nat, prefix: seq<nat>, depth: nat, live: set<nat>)
    requires DefsOk(defs) && id < |defs| && k < |defs[id]|
    ensures InOrder(FieldEntries(defs, id, k, prefix, depth, live))
    ensures At(FieldEntries(defs, id, k, prefix, depth, live), prefix, k)
    decreases Left(defs, live), 2, 0
  {
    hide Earlier;
    var f, es := defs[id][k], FieldEntries(defs, id, k, prefix, depth, live);
    if !f.skip && Promotes(f) {
      PeelKnown(defs, f.typ);
      FieldsInOrder(defs, Peel(f.typ).id, prefix + [k], depth + 1, live);
      forall e | e in es ensures prefix < e.path && e.path[|prefix|] == k { assert prefix + [k] < e.path; }
    }
  }

  // ---- The theorem ---------------------------------------------------------------------------------------

  /** The entry at the end of the way, in full. */
  ghost predicate EntryFor(defs: Defs, id: nat, e: Entry, ids: seq<nat>)
  {
    && Descends(defs, id, ids, e.path) && Once(ids)
    && var f := Target(defs, ids, e.path);
    e.key == f.key && e.tagged == f.tagged && e.omit == f.omit && e.typ == f.typ && e.depth == |e.path| - 1
  }

  /** The visible fields are exactly those at the end of a way down the embeds that enters no struct
      twice, each described as it is declared. */
  lemma FlatIff(defs: Defs, id: nat, e: Entry)
    requires DefsOk(defs) && id < |defs|
    ensures e in Flat(defs, id) <==> exists ids :: EntryFor(defs, id, e, ids)
  {
    hide Fields, Descends, Once;
    var none: seq<nat> := [];
    if e in Flat(defs, id) {
      var ids, p := FieldsDescribe(defs, id, none, 0, {}, e);
      assert none + p == p;
      assert EntryFor(defs, id, e, ids);
    }
    if ids :| EntryFor(defs, id, e, ids) {
      assert none + e.path == e.path;
      FieldsHave(defs, id, none, 0, {}, ids, e.path);
      var e' :| e' in Flat(defs, id) && e'.path == e.path;
      var ids', p' := FieldsDescribe(defs, id, none, 0, {}, e');
      assert none + p' == p';
      OneWay(defs, id, ids, ids', e.path);
      assert e == e';
    }
  }

  /** A path determines the structs on its way. */
  lemma {:induction false} OneWay(defs: Defs, id: nat, ids: seq<nat>, ns: seq<nat>, p: seq<nat>)
    requires Descends(defs, id, ids, p) && Descends(defs, id, ns, p)
    ensures ids == ns
    decreases |p|
  {
    if |p| > 1 {
      DescendsRest(defs, id, ids, p);
      DescendsRest(defs, id, ns, p);
      OneWay(defs, ids[1], ids[1..], ns[1..], p[1..]);
      assert ids == [ids[0]] + ids[1..] && ns == [ns[0]] + ns[1..];
    }
  }

  /** They come in the order of the declarations, each embed expanded in place, and each once. */
  lemma FlatInOrder(defs: Defs, id: nat, i: nat, j: nat)
    requires DefsOk(defs) && id < |defs| && i < j < |Flat(defs, id)|
    ensures Earlier(Flat(defs, id)[i].path, Flat(defs, id)[j].path) && Flat(defs, id)[i].path != Flat(defs, id)[j].path
  {
    hide Fields;
    FieldsInOrder(defs, id, [], 0, {});
  }
}
