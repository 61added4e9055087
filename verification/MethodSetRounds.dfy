/** Every round of the walk keeps the invariant of its queue. */
module MethodSetRounds {
  import opened Basics
  import opened MethodSet
  import opened MethodSetLaw
  import opened MethodSetCover
  import opened MethodSetQueue

  /** The board after one round. */
  function After(g: Graph, b: Board): (b': Board)
    requires b.m < |b.all| == |b.ls| && b.all[b.m].sym in g
  {
    var x := b.all[b.m];
    match g[x.sym].shape
    case Interface(_) =>
      var r := Flatten(g, x.sym, 0, x.depth, b.visited);
      Board(b.all, b.ls, b.m + 1, r.1, Added(g, b.visited, r.1, b.flat, b.ls[b.m]), b.out + r.0)
    case Struct(_) =>
      var q, ks := Push(g, x, 0, b.visited), Pushed(g, x, 0, b.visited);
      Board(b.all + q.0, b.ls + Lengthened(b.ls[b.m], ks), b.m + 1, q.1, b.flat, b.out + Methods(g[x.sym].methods, x))
    case _ => Board(b.all, b.ls, b.m + 1, b.visited, b.flat, b.out + Methods(g[x.sym].methods, x))
  }

  /** What an interface's round flattens. */
  function Added(g: Graph, visited: set<Sym>, after: set<Sym>, flat: map<Sym, seq<nat>>, l: seq<nat>)
    : map<Sym, seq<nat>>
  {
    (map u | u in after && u !in visited && u in g && !g[u].shape.Named? :: l) + flat
  }

  function Lengthened(l: seq<nat>, ks: seq<nat>): (r: seq<seq<nat>>)
    ensures |r| == |ks| && forall j :: 0 <= j < |ks| ==> r[j] == l + [ks[j]]
  {
    seq(|ks|, j requires 0 <= j < |ks| => l + [ks[j]])
  }

  // ---- What every round keeps --------------------------------------------------------------------

  lemma ParentsOn(g: Graph, s: Sym, all: seq<Entry>, ls: seq<seq<nat>>, m: nat)
    requires s in g && |ls| == |all| && Parents(g, s, all, ls, m)
    ensures Parents(g, s, all, ls, m + 1)
  {
    hide Starts;
    forall i | 0 <= i < |ls| && |ls[i]| > 1
      ensures exists p :: 0 <= p < m + 1 && p < |ls| && ls[i] == ls[p] + [ls[i][|ls[i]| - 1]]
    {
      var p :| 0 <= p < m && p < |ls| && ls[i] == ls[p] + [ls[i][|ls[i]| - 1]];
    }
  }

  lemma FromMore(g: Graph, all: seq<Entry>, m: nat, flat: map<Sym, seq<nat>>, all': seq<Entry>, m': nat,
      flat': map<Sym, seq<nat>>, a: Arrival)
    requires m <= |all| && all <= all' && m <= m' <= |all'| && From(g, all, m, flat, a)
    requires forall u: Sym :: u in flat ==> u in flat' && flat'[u] == flat[u]
    ensures From(g, all', m', flat', a)
  {
    hide Methods, Specifies;
    if g[a.src].shape.Interface? {
      if i :| 0 <= i < m && all[i].sym == a.src && all[i].depth == a.depth { assert all'[i] == all[i]; }
    } else {
      var i :| 0 <= i < m && all[i].sym == a.src && a in Methods(g[a.src].methods, all[i]);
      assert all'[i] == all[i];
    }
  }

  lemma MethodsFrom(g: Graph, all: seq<Entry>, all': seq<Entry>, m: nat, flat: map<Sym, seq<nat>>, out: seq<Arrival>)
    requires m < |all| && all <= all' && Traced(g, all, m, flat, out) && all[m].sym in g
    requires !g[all[m].sym].shape.Interface?
    ensures Traced(g, all', m + 1, flat, out + Methods(g[all[m].sym].methods, all[m]))
  {
    hide Methods, Specifies;
    var x := all[m];
    forall a | a in out + Methods(g[x.sym].methods, x) ensures From(g, all', m + 1, flat, a) {
      if a in out {
        FromMore(g, all, m, flat, all', m + 1, flat, a);
      } else {
        MethodsSound(g[x.sym].methods, x, a);
        assert all'[m] == x;
      }
    }
  }

  lemma EntryOn(g: Graph, s: Sym, b: Board, i: nat)
    requires s in g && AllLabeled(g, s, b.all, b.ls) && i < |b.all|
    ensures b.all[i].sym in g && Labeled(g, s, b.all[i], b.ls[i]) && On(g, s, b.all[i].sym)
  {
    hide Labeled;
    assert Labeled(g, s, b.all[i], b.ls[i]);
    LabeledOn(g, s, b.all[i], b.ls[i]);
  }

  lemma LabeledOn(g: Graph, s: Sym, x: Entry, l: seq<nat>)
    requires s in g && Labeled(g, s, x, l)
    ensures x.sym in g && On(g, s, x.sym)
  {
    hide On;
    WayOn(g, s, l);
  }

  /** Every entry was pushed in an earlier round. */
  lemma OldAbove(g: Graph, s: Sym, b: Board, j: nat)
    requires s in g && AllLabeled(g, s, b.all, b.ls) && Sorted(b.ls) && Parents(g, s, b.all, b.ls, b.m)
    requires b.m < |b.all| && j < |b.all|
    ensures b.ls[j] != [] && Before(Above(b.ls[j]), b.ls[b.m])
  {
    hide Labeled, Starts, Lex;
    LabelsLong(g, s, b, j);
    LabelsLong(g, s, b, b.m);
    if |b.ls[j]| > 1 {
      var p :| 0 <= p < b.m && p < |b.ls| && b.ls[j] == b.ls[p] + [b.ls[j][|b.ls[j]| - 1]];
      assert Above(b.ls[j]) == b.ls[p];
      assert Before(b.ls[p], b.ls[b.m]);
    }
  }

  lemma LabelsLong(g: Graph, s: Sym, b: Board, i: nat)
    requires s in g && AllLabeled(g, s, b.all, b.ls) && i < |b.all|
    ensures |b.ls[i]| >= 1 && b.all[i].depth == |b.ls[i]| - 1 && b.all[i].top == (|b.ls[i]| == 1)
  {
    assert Labeled(g, s, b.all[i], b.ls[i]);
  }

  /** What was flattened was in an earlier round. */
  lemma OldFlat(g: Graph, b: Board, u: Sym)
    requires FlatOk(g, b.all, b.ls, b.m, b.flat, b.out) && Sorted(b.ls) && b.m < |b.all| && u in b.flat
    ensures Before(b.flat[u], b.ls[b.m])
  {
    hide Spread, Route, Last, Through, Before;
    assert Rooted(g, b.all, b.ls, b.m, b.flat, u);
    var i: nat, route: seq<nat> :| i < b.m && b.ls[i] == b.flat[u] && IsInterface(g, Some(b.all[i].sym)) && route != []
      && Route(g, b.all[i].sym, route) && Last(g, b.all[i].sym, route) == u
      && Through(g, b.all[i].sym, route, Flats(b.flat, b.ls[i]));
  }

  // ---- At an interface ---------------------------------------------------------------------------

  /** What was visited before the round was met in time for it. */
  lemma OldOnTime(g: Graph, s: Sym, b: Board, flat': map<Sym, seq<nat>>, u: Sym)
    requires s in g && Inv(g, s, b) && b.m < |b.all| && u in b.visited && u in g && !g[u].shape.Named?
    requires forall v: Sym :: v in b.flat ==> v in flat' && flat'[v] == b.flat[v]
    ensures |b.all| == |b.ls| && OnTime(b.all, b.ls, flat', u, b.ls[b.m])
  {
    hide Labeled, Sorted, Parents, FlatOk, AllFinished, Distinct, Traced, Resolved, Lex, Before;
    if u in b.flat {
      OldFlat(g, b, u);
    } else {
      var i: nat :| i < |b.all| && b.all[i].sym == u;
      OldAbove(g, s, b, i);
    }
  }

  lemma ElementsNow(g: Graph, s: Sym, b: Board, after: set<Sym>, t: Sym)
    requires s in g && Regular(g, s) && Inv(g, s, b) && b.m < |b.all| == |b.ls|
    requires On(g, s, t) && t in g && g[t].shape.Interface? && Entered(g, t, 0, after)
    ensures ElementsMet(g, t, b.all, b.ls, Added(g, b.visited, after, b.flat, b.ls[b.m]), b.ls[b.m])
  {
    hide On, Ends, Short, Terms, Inv, Before;
    var l := b.ls[b.m];
    var flat' := Added(g, b.visited, after, b.flat, l);
    forall k: nat, w: Sym | Refers(g, t, k) && Ends(g, Target(g, t, k), w) ensures OnTime(b.all, b.ls, flat', w, l) {
      assert w in after;
      EndsPlain(g, Target(g, t, k), w);
      if w in b.visited {
        OldOnTime(g, s, b, flat', w);
      } else {
        assert w !in b.flat by { FlatVisited(g, s, b); }
        assert w in flat' && flat'[w] == l;
      }
    }
  }

  lemma FlatVisited(g: Graph, s: Sym, b: Board)
    requires s in g && Inv(g, s, b)
    ensures b.flat.Keys <= b.visited
  {
    hide AllLabeled, Sorted, Parents, Seen, FlatOk, AllFinished, Traced;
  }

  lemma {:induction false} ThroughPlain(g: Graph, t: Sym, route: seq<nat>, a: set<Sym>, b: set<Sym>)
    requires t in g && Route(g, t, route) && Through(g, t, route, a)
    requires forall v :: v in a && v in g && !g[v].shape.Named? ==> v in b
    ensures Through(g, t, route, b)
    decreases |route|
  {
    hide Next;
    if route != [] {
      NextPlain(g, t);
      ThroughPlain(g, Next(g, t, route[0]).value, route[1..], a, b);
    }
  }

  /** What is newly flattened is rooted in the entry of the round. */
  lemma RootedNow(g: Graph, s: Sym, b: Board, u: Sym)
    requires s in g && Regular(g, s) && Inv(g, s, b) && b.m < |b.all| == |b.ls| && b.all[b.m].sym in g
    requires g[b.all[b.m].sym].shape.Interface? && u in g && !g[u].shape.Named?
    requires u in After(g, b).visited && u !in b.visited
    ensures u in After(g, b).flat && Rooted(g, b.all, b.ls, b.m + 1, After(g, b).flat, u)
  {
    hide Flatten, On, Short, Terms, Inv, Resolved, Route, Last, Through;
    var x, b' := b.all[b.m], After(g, b);
    var r := Flatten(g, x.sym, 0, x.depth, b.visited);
    InvOn(g, s, b);
    FlatVisited(g, s, b);
    assert u !in b.flat;
    var route := FlattenTrace(g, s, x.sym, 0, x.depth, b.visited, u);
    var here := Flats(b'.flat, b.ls[b.m]);
    forall v | v in r.1 - b.visited && v in g && !g[v].shape.Named? ensures v in here { assert v !in b.flat; }
    ThroughPlain(g, x.sym, route, r.1 - b.visited, here);
  }

  lemma InvOn(g: Graph, s: Sym, b: Board)
    requires s in g && Inv(g, s, b) && b.m < |b.all| && b.all[b.m].sym in g
    ensures On(g, s, b.all[b.m].sym) && Resolved(g, b.visited) && b.all[b.m].depth == |b.ls[b.m]| - 1
  {
    hide Sorted, Parents, FlatOk, AllFinished, Distinct, Traced, Resolved, Labeled, On;
    EntryOn(g, s, b, b.m);
    LabelsLong(g, s, b, b.m);
  }

  lemma InterfaceGrown(g: Graph, b: Board)
    requires b.m < |b.all| == |b.ls| && b.all[b.m].sym in g && g[b.all[b.m].sym].shape.Interface?
    ensures var b' := After(g, b); Grown(b.all, b.ls, b.flat, b.out, b'.all, b'.ls, b'.flat, b'.out)
  {
    hide Flatten;
  }

  /** The round's closure, in the terms of the board. */
  lemma InterfaceCloses(g: Graph, s: Sym, b: Board)
    requires s in g && Regular(g, s) && Inv(g, s, b) && b.m < |b.all| == |b.ls| && b.all[b.m].sym in g
    requires g[b.all[b.m].sym].shape.Interface?
    ensures var b' := After(g, b); var x := b.all[b.m];
      && b.visited <= b'.visited && Resolved(g, b'.visited) && Listed(g, x.sym, 0, x.depth, b'.out)
      && Entered(g, x.sym, 0, b'.visited) && Flattened(g, s, b.visited, b'.visited, x.depth, b'.out)
  {
    hide Flatten, On, Short, Terms, Inv, Resolved, Listed, Entered;
    var x, b' := b.all[b.m], After(g, b);
    var r := Flatten(g, x.sym, 0, x.depth, b.visited);
    InvOn(g, s, b);
    FlattenCloses(g, s, x.sym, 0, x.depth, b.visited);
    ListedMore(g, x.sym, x.depth, r.0, b'.out);
    FlattenedMore(g, s, b.visited, r.1, r.1, x.depth, r.0, b'.out);
    FlattenedIs(g, s, b.visited, r.1, x.depth, b'.out);
  }

  lemma InterfaceFlat(g: Graph, s: Sym, b: Board)
    requires s in g && Regular(g, s) && Inv(g, s, b) && b.m < |b.all| == |b.ls| && b.all[b.m].sym in g
    requires g[b.all[b.m].sym].shape.Interface?
    ensures var b' := After(g, b); FlatOk(g, b'.all, b'.ls, b'.m, b'.flat, b'.out)
  {
    hide Flatten, Regular, Inv, Resolved, Spread, Rooted, Grown, Flattened, Listed, Entered;
    var b' := After(g, b);
    InterfaceGrown(g, b);
    InterfaceCloses(g, s, b);
    assert FlatOk(g, b.all, b.ls, b.m, b.flat, b.out) by { InvFlat(g, s, b); }
    forall u: Sym | u in b'.flat
      ensures Spread(g, b'.all, b'.ls, b'.flat, b'.out, u) && Rooted(g, b'.all, b'.ls, b'.m, b'.flat, u)
    {
      if u in b.flat {
        FlatOkMore(g, b.all, b.ls, b.m, b.flat, b.out, b'.all, b'.ls, b'.m, b'.flat, b'.out, u);
      } else {
        RootedNow(g, s, b, u);
        SpreadNow(g, s, b, u);
      }
    }
  }

  lemma InvFlat(g: Graph, s: Sym, b: Board)
    requires s in g && Inv(g, s, b)
    ensures FlatOk(g, b.all, b.ls, b.m, b.flat, b.out)
  {
    hide AllLabeled, Sorted, Parents, Seen, AllFinished, Distinct, Traced, Spread, Rooted;
  }

  lemma SpreadNow(g: Graph, s: Sym, b: Board, u: Sym)
    requires s in g && Regular(g, s) && Inv(g, s, b) && b.m < |b.all| == |b.ls| && b.all[b.m].sym in g
    requires g[b.all[b.m].sym].shape.Interface? && u in After(g, b).flat && u !in b.flat
    ensures Spread(g, b.all, b.ls, After(g, b).flat, After(g, b).out, u)
  {
    hide Flatten, Regular, Inv, Resolved, Listed, Entered, ElementsMet, On;
    var b' := After(g, b);
    InterfaceCloses(g, s, b);
    InvOn(g, s, b);
    ElementsNow(g, s, b, b'.visited, u);
  }

  lemma InterfaceTraced(g: Graph, s: Sym, b: Board)
    requires s in g && Inv(g, s, b) && b.m < |b.all| == |b.ls| && b.all[b.m].sym in g
    requires g[b.all[b.m].sym].shape.Interface?
    ensures Traced(g, b.all, b.m + 1, After(g, b).flat, After(g, b).out)
  {
    hide Flatten, Labeled, Sorted, Parents, Seen, FlatOk, AllFinished, Methods, Specifies;
    var x, b' := b.all[b.m], After(g, b);
    forall a | a in b'.out ensures From(g, b.all, b.m + 1, b'.flat, a) {
      if a in b.out {
        assert From(g, b.all, b.m, b.flat, a);
        FromMore(g, b.all, b.m, b.flat, b.all, b.m + 1, b'.flat, a);
      } else {
        FlattenFrom(g, x.sym, 0, x.depth, b.visited, a);
        LabelsLong(g, s, b, b.m);
        if a.src == x.sym { assert b.all[b.m].sym == a.src; } else { assert a.src !in b.flat; }
      }
    }
  }

  lemma InterfaceSeen(g: Graph, s: Sym, b: Board)
    requires s in g && Regular(g, s) && Inv(g, s, b) && b.m < |b.all| == |b.ls| && b.all[b.m].sym in g
    requires g[b.all[b.m].sym].shape.Interface?
    ensures var b' := After(g, b); Seen(g, b'.all, b'.visited, b'.flat) && Distinct(b'.all, b'.visited, b'.flat)
  {
    hide Flatten, Regular, AllLabeled, Sorted, Parents, FlatOk, AllFinished, Traced, Resolved, Listed, Entered;
    hide Flattened;
    InterfaceCloses(g, s, b);
  }

  lemma InterfaceFinished(g: Graph, s: Sym, b: Board)
    requires s in g && Regular(g, s) && Inv(g, s, b) && b.m < |b.all| == |b.ls| && b.all[b.m].sym in g
    requires g[b.all[b.m].sym].shape.Interface?
    ensures var b' := After(g, b); AllFinished(g, b'.all, b'.ls, b'.m, b'.flat, b'.out)
  {
    hide Flatten, Regular, Inv, Resolved, Listed, Entered, Flattened, ElementsMet, Grown, On;
    var b', x := After(g, b), b.all[b.m];
    InterfaceGrown(g, b);
    InterfaceCloses(g, s, b);
    InvOn(g, s, b);
    ElementsNow(g, s, b, b'.visited, x.sym);
    assert Finished(g, b'.all, b'.ls, b.m, b'.flat, b'.out);
    hide Finished;
    assert AllFinished(g, b.all, b.ls, b.m, b.flat, b.out) by { InvFinished(g, s, b); }
    AllFinishedMore(g, b.all, b.ls, b.m, b.flat, b.out, b'.all, b'.ls, b'.flat, b'.out);
  }

  lemma InvFinished(g: Graph, s: Sym, b: Board)
    requires s in g && Inv(g, s, b)
    ensures AllFinished(g, b.all, b.ls, b.m, b.flat, b.out)
  {
    hide AllLabeled, Sorted, Parents, Seen, FlatOk, Distinct, Traced, Finished;
  }

  lemma InterfaceKeeps(g: Graph, s: Sym, b: Board)
    requires s in g && Regular(g, s) && Inv(g, s, b) && b.m < |b.all| && b.all[b.m].sym in g
    requires g[b.all[b.m].sym].shape.Interface?
    ensures |b.all| == |b.ls| && Inv(g, s, After(g, b))
  {
    hide Flatten, Regular, Labeled, Sorted, Seen, FlatOk, AllFinished, Traced, Parents, Distinct;
    assert |b.all| == |b.ls|;
    InterfaceFlat(g, s, b);
    InterfaceTraced(g, s, b);
    InterfaceSeen(g, s, b);
    InterfaceFinished(g, s, b);
    ParentsOn(g, s, b.all, b.ls, b.m);
  }

  // ---- At a struct ---------------------------------------------------------------------------------

  /** Every way so far comes before one a place longer than the way of the entry being read. */
  lemma OldBefore(g: Graph, s: Sym, b: Board, i: nat, k: nat)
    requires s in g && AllLabeled(g, s, b.all, b.ls) && Sorted(b.ls) && Parents(g, s, b.all, b.ls, b.m)
    requires b.m < |b.all| && i < |b.all|
    ensures Before(b.ls[i], b.ls[b.m] + [k])
  {
    hide Labeled, Starts, Lex;
    var l := b.ls[b.m];
    LabelsLong(g, s, b, i);
    LabelsLong(g, s, b, b.m);
    if i <= b.m {
      if i < b.m { assert Before(b.ls[i], l); }
    } else if |b.ls[i]| > 1 {
      var p :| 0 <= p < b.m && p < |b.ls| && b.ls[i] == b.ls[p] + [b.ls[i][|b.ls[i]| - 1]];
      assert Before(b.ls[p], l);
      BeforeSnoc(b.ls[p], l, b.ls[i][|b.ls[i]| - 1], k);
    }
  }

  /** The entry pushed for place `k` stands at the end of the way lengthened by `k`. */
  lemma PushLabeled(g: Graph, s: Sym, x: Entry, l: seq<nat>, k: nat, y: Entry)
    requires s in g && Labeled(g, s, x, l) && g[x.sym].shape.Struct? && IsPush(g, x, k, y)
    ensures Labeled(g, s, y, l + [k])
  {
    hide Starts, Next, ByPtr;
    WaySnoc(g, s, l, k);
  }

  lemma StructLabels(g: Graph, s: Sym, b: Board, q: (seq<Entry>, set<Sym>), ks: seq<nat>)
    requires s in g && AllLabeled(g, s, b.all, b.ls) && Sorted(b.ls) && Parents(g, s, b.all, b.ls, b.m)
    requires b.m < |b.all| && b.all[b.m].sym in g && g[b.all[b.m].sym].shape.Struct?
    requires Pushes(g, b.all[b.m], 0, b.visited, q, ks)
    ensures AllLabeled(g, s, b.all + q.0, b.ls + Lengthened(b.ls[b.m], ks))
    ensures Sorted(b.ls + Lengthened(b.ls[b.m], ks))
  {
    hide Labeled, Parents, IsPush, Resolved, Next, Refers, Lex, Before;
    var x, l := b.all[b.m], b.ls[b.m];
    var all, ls, n := b.all + q.0, b.ls + Lengthened(l, ks), |b.all|;
    forall i | 0 <= i < |all| ensures Labeled(g, s, all[i], ls[i]) {
      if i >= n {
        assert IsPush(g, x, ks[i - n], q.0[i - n]);
        PushLabeled(g, s, x, l, ks[i - n], q.0[i - n]);
      }
    }
    forall i, j | 0 <= i < j < |ls| ensures Before(ls[i], ls[j]) {
      if j >= n && i < n {
        OldBefore(g, s, b, i, ks[j - n]);
      } else if i >= n {
        BeforeSnoc(l, l, ks[i - n], ks[j - n]);
      }
    }
  }

  lemma StructParents(g: Graph, s: Sym, b: Board, more: seq<Entry>, ks: seq<nat>)
    requires s in g && |b.ls| == |b.all| && Parents(g, s, b.all, b.ls, b.m) && b.m < |b.all| && |more| == |ks|
    ensures Parents(g, s, b.all + more, b.ls + Lengthened(b.ls[b.m], ks), b.m + 1)
  {
    hide Starts;
    var ls, n := b.ls + Lengthened(b.ls[b.m], ks), |b.all|;
    forall i | 0 <= i < |ls| && |ls[i]| > 1
      ensures exists p :: 0 <= p < b.m + 1 && p < |ls| && ls[i] == ls[p] + [ls[i][|ls[i]| - 1]]
    {
      if i < n {
        var p :| 0 <= p < b.m && p < n && b.ls[i] == b.ls[p] + [b.ls[i][|b.ls[i]| - 1]];
        assert ls[i] == ls[p] + [ls[i][|ls[i]| - 1]];
      } else {
        assert ls[i] == ls[b.m] + [ks[i - n]];
      }
    }
  }

  lemma StructSeen(g: Graph, b: Board, x: Entry, q: (seq<Entry>, set<Sym>), ks: seq<nat>)
    requires x.sym in g && Seen(g, b.all, b.visited, b.flat) && Distinct(b.all, b.visited, b.flat)
    requires Pushes(g, x, 0, b.visited, q, ks)
    ensures Seen(g, b.all + q.0, q.1, b.flat) && Distinct(b.all + q.0, q.1, b.flat)
  {
    hide Resolved, IsPush, Next, Refers;
    var all, n := b.all + q.0, |b.all|;
    forall u: Sym | u in q.1 && u in g && !g[u].shape.Named? ensures Has(all, u) || u in b.flat {
      if u !in b.visited {
        var j :| 0 <= j < |ks| && q.0[j].sym == u;
        assert all[n + j].sym == u;
      } else if u !in b.flat {
        var i :| 0 <= i < n && b.all[i].sym == u;
        assert all[i].sym == u;
      }
    }
    forall i | 0 <= i < |all| && !all[i].top ensures all[i].sym in q.1 && all[i].sym !in b.flat {
      if i >= n { assert all[i] == q.0[i - n]; }
    }
    forall i, j | 0 <= i < j < |all| && !all[i].top && !all[j].top ensures all[i].sym != all[j].sym {
      if i >= n {
        assert all[i] == q.0[i - n] && all[j] == q.0[j - n];
      } else if j >= n {
        assert all[j] == q.0[j - n];
      }
    }
  }

  /** What a field leads to has an entry at or before the field's own way, or was flattened before. */
  lemma FieldPlaced(g: Graph, s: Sym, b: Board, q: (seq<Entry>, set<Sym>), ks: seq<nat>, k: nat)
    requires s in g && Inv(g, s, b) && b.m < |b.all| == |b.ls|
    requires b.all[b.m].sym in g && g[b.all[b.m].sym].shape.Struct? && Pushes(g, b.all[b.m], 0, b.visited, q, ks)
    requires Refers(g, b.all[b.m].sym, k) && Next(g, b.all[b.m].sym, k).Some?
    ensures |q.0| == |ks|
    ensures
      Placed(b.all + q.0, b.ls + Lengthened(b.ls[b.m], ks), b.flat, Next(g, b.all[b.m].sym, k).value, b.ls[b.m], k)
  {
    hide Sorted, Parents, Labeled, Resolved, IsPush, Next, Refers, FlatOk, AllFinished, Distinct, Traced, Before;
    var x, l, n := b.all[b.m], b.ls[b.m], |b.all|;
    var u, all, ls := Next(g, x.sym, k).value, b.all + q.0, b.ls + Lengthened(l, ks);
    if u in b.visited {
      NextPlain(g, x.sym);
      if u in b.flat {
        OldFlat(g, b, u);
      } else {
        var i :| 0 <= i < n && b.all[i].sym == u;
        OldBefore(g, s, b, i, k);
        assert all[i].sym == u && NotAfter(ls[i], l + [k]);
      }
    } else {
      var j :| 0 <= j < |ks| && ks[j] <= k && q.0[j].sym == u;
      BeforeSnoc(l, l, ks[j], k);
      assert all[n + j].sym == u && NotAfter(ls[n + j], l + [k]);
    }
  }

  lemma StructFinished(g: Graph, s: Sym, b: Board, q: (seq<Entry>, set<Sym>), ks: seq<nat>, out: seq<Arrival>)
    requires s in g && Inv(g, s, b) && b.m < |b.all| == |b.ls|
    requires b.all[b.m].sym in g && g[b.all[b.m].sym].shape.Struct? && Pushes(g, b.all[b.m], 0, b.visited, q, ks)
    requires |q.0| == |ks| && out == b.out + Methods(g[b.all[b.m].sym].methods, b.all[b.m])
    ensures var all, ls := b.all + q.0, b.ls + Lengthened(b.ls[b.m], ks);
      AllFinished(g, all, ls, b.m + 1, b.flat, out) && Grown(b.all, b.ls, b.flat, b.out, all, ls, b.flat, out)
  {
    hide Inv, Methods, Next, Refers, Placed, Finished, Pushes;
    var all, ls, x := b.all + q.0, b.ls + Lengthened(b.ls[b.m], ks), b.all[b.m];
    assert Grown(b.all, b.ls, b.flat, b.out, all, ls, b.flat, out);
    assert AllFinished(g, b.all, b.ls, b.m, b.flat, b.out) by { InvFinished(g, s, b); }
    AllFinishedMore(g, b.all, b.ls, b.m, b.flat, b.out, all, ls, b.flat, out);
    forall k: nat | Refers(g, x.sym, k) && Next(g, x.sym, k).Some?
      ensures Placed(all, ls, b.flat, Next(g, x.sym, k).value, b.ls[b.m], k)
    {
      FieldPlaced(g, s, b, q, ks, k);
    }
    StructIsFinished(g, all, ls, b.m, b.flat, out);
  }

  lemma StructIsFinished(g: Graph, all: seq<Entry>, ls: seq<seq<nat>>, i: nat, flat: map<Sym, seq<nat>>,
      out: seq<Arrival>)
    requires i < |all| == |ls| && all[i].sym in g && g[all[i].sym].shape.Struct?
    requires forall a :: a in Methods(g[all[i].sym].methods, all[i]) ==> a in out
    requires forall k: nat :: Refers(g, all[i].sym, k) && Next(g, all[i].sym, k).Some? ==>
      Placed(all, ls, flat, Next(g, all[i].sym, k).value, ls[i], k)
    ensures Finished(g, all, ls, i, flat, out)
  {
    hide Placed, Next, Refers, Methods;
  }

  lemma KeptFlat(g: Graph, b: Board, all': seq<Entry>, ls': seq<seq<nat>>, m': nat, out': seq<Arrival>)
    requires FlatOk(g, b.all, b.ls, b.m, b.flat, b.out) && b.m <= m' <= |all'|
    requires Grown(b.all, b.ls, b.flat, b.out, all', ls', b.flat, out')
    ensures FlatOk(g, all', ls', m', b.flat, out')
  {
    hide Spread, Rooted, Grown;
    GrownLong(b.all, b.ls, b.flat, b.out, all', ls', b.flat, out');
    forall u: Sym | u in b.flat
      ensures Spread(g, all', ls', b.flat, out', u) && Rooted(g, all', ls', m', b.flat, u)
    {
      FlatOkMore(g, b.all, b.ls, b.m, b.flat, b.out, all', ls', m', b.flat, out', u);
    }
  }

  lemma StructKeeps(g: Graph, s: Sym, b: Board)
    requires s in g && Regular(g, s) && Inv(g, s, b) && b.m < |b.all| && b.all[b.m].sym in g
    requires g[b.all[b.m].sym].shape.Struct?
    ensures |b.all| == |b.ls| && Inv(g, s, After(g, b))
  {
    hide Push, Pushed, Pushes, Labeled, Sorted, Seen, FlatOk, AllFinished, Traced, Parents, Methods, Distinct;
    hide Short, Terms, On, Grown;
    var b', x := After(g, b), b.all[b.m];
    var q, ks := Push(g, x, 0, b.visited), Pushed(g, x, 0, b.visited);
    InvOn(g, s, b);
    PushCloses(g, s, x, 0, b.visited);
    assert |q.0| == |ks| by { PushesLong(g, x, b.visited, q, ks); }
    StructLabels(g, s, b, q, ks);
    StructParents(g, s, b, q.0, ks);
    StructSeen(g, b, x, q, ks);
    StructFinished(g, s, b, q, ks, b'.out);
    KeptFlat(g, b, b'.all, b'.ls, b'.m, b'.out);
    MethodsFrom(g, b.all, b'.all, b.m, b.flat, b.out);
  }

  lemma PushesLong(g: Graph, x: Entry, visited: set<Sym>, q: (seq<Entry>, set<Sym>), ks: seq<nat>)
    requires x.sym in g && Pushes(g, x, 0, visited, q, ks)
    ensures |q.0| == |ks|
  {
  }

  // ---- At any other declaration -----------------------------------------------------------------------

  lemma OtherKeeps(g: Graph, s: Sym, b: Board)
    requires s in g && Inv(g, s, b) && b.m < |b.all| && b.all[b.m].sym in g
    requires !g[b.all[b.m].sym].shape.Struct? && !g[b.all[b.m].sym].shape.Interface?
    ensures |b.all| == |b.ls| && Inv(g, s, After(g, b))
  {
    hide Labeled, Sorted, Seen, FlatOk, Traced, Parents, Methods, Distinct, Placed, ElementsMet, Listed;
    var b' := After(g, b);
    assert Grown(b.all, b.ls, b.flat, b.out, b'.all, b'.ls, b'.flat, b'.out);
    ParentsOn(g, s, b.all, b.ls, b.m);
    KeptFlat(g, b, b'.all, b'.ls, b'.m, b'.out);
    assert Finished(g, b'.all, b'.ls, b.m, b'.flat, b'.out);
    hide Finished;
    AllFinishedMore(g, b.all, b.ls, b.m, b.flat, b.out, b'.all, b'.ls, b'.flat, b'.out);
    MethodsFrom(g, b.all, b'.all, b.m, b.flat, b.out);
  }

  // ---- The whole walk ------------------------------------------------------------------------------------

  /** The board follows the walk. */
  lemma AfterIsRound(g: Graph, b: Board)
    requires b.m < |b.all| == |b.ls| && b.all[b.m].sym in g
    ensures var r, b' := Round(g, b.all[b.m], b.visited), After(g, b);
      b'.m == b.m + 1 <= |b'.all| && b'.all[b'.m..] == b.all[b.m..][1..] + r.1 && b'.visited == r.2
        && b'.out == b.out + r.0
  {
    hide Flatten, Push, Pushed, Methods;
  }

  lemma Reading(g: Graph, s: Sym, b: Board)
    requires s in g && Inv(g, s, b)
    ensures forall e :: e in b.all[b.m..] ==> e.sym in g
  {
    hide Sorted, Seen, FlatOk, AllFinished, Traced, Parents, Distinct, Labeled;
    forall e | e in b.all[b.m..] ensures e.sym in g {
      var i: nat :| b.m <= i < |b.all| && b.all[i] == e;
      EntryOn(g, s, b, i);
    }
  }

  lemma AfterKeeps(g: Graph, s: Sym, b: Board)
    requires s in g && Regular(g, s) && Inv(g, s, b) && b.m < |b.all| && b.all[b.m].sym in g
    ensures |b.ls| == |b.all| && Inv(g, s, After(g, b))
  {
    hide Regular;
    assert |b.ls| == |b.all|;
    hide Inv;
    match g[b.all[b.m].sym].shape
    case Interface(_) => InterfaceKeeps(g, s, b);
    case Struct(_) => StructKeeps(g, s, b);
    case _ => OtherKeeps(g, s, b);
  }

  lemma {:induction false} WalkCloses(g: Graph, s: Sym, b: Board) returns (f: Board)
    requires s in g && Regular(g, s) && Inv(g, s, b) && b.m <= |b.all| && forall e :: e in b.all[b.m..] ==> e.sym in g
    ensures Inv(g, s, f) && f.m == |f.all| && f.out == b.out + Walk(g, b.all[b.m..], b.visited)
    decreases g.Keys - b.visited, |b.all| - b.m
  {
    hide Regular, Inv, Round;
    if b.m == |b.all| {
      f := b;
    } else {
      assert b.all[b.m] in b.all[b.m..];
      AfterKeeps(g, s, b);
      AfterIsRound(g, b);
      var b' := After(g, b);
      Reading(g, s, b');
      f := WalkCloses(g, s, b');
    }
  }

  lemma ChaseNothing(g: Graph, s: Sym)
    requires ShortAt(g, s)
    ensures var c := Chase(g, s, {}, LAYERS);
      c.0 == End(g, s, LAYERS) && Resolved(g, c.1) && forall u: Sym :: u in c.1 && u in g && !g[u].shape.Named? ==>
        c.0 == Some(u)
  {
    hide Chase, End, ShortAt;
    assert Resolved(g, {});
    ChaseResolves(g, s, {});
    var c := Chase(g, s, {}, LAYERS);
    forall u: Sym | u in c.1 && u in g && !g[u].shape.Named? ensures c.0 == Some(u) { ChaseFinds(g, s, {}, LAYERS, u); }
  }

  ghost function Opening(g: Graph, s: Sym): Board
    requires s in g
  {
    var q := Start(g, s);
    Board(q.0, if |q.0| == 1 then [[0]] else [[0], [1]], 0, q.1, map[], [])
  }

  lemma StartIs(g: Graph, s: Sym)
    requires s in g && Short(g, s)
    ensures Start(g, s).0 == Starts(g, s) && Seen(g, Start(g, s).0, Start(g, s).1, map[])
  {
    hide Chase, End, Ends, ShortAt;
    var q := Start(g, s);
    assert Resolved(g, {});
    if g[s].shape.Named? && g[s].shape.alias {
      ChaseNothing(g, g[s].shape.next);
      forall u: Sym | u in q.1 && u in g && !g[u].shape.Named? ensures Has(q.0, u) { assert q.0[1].sym == u; }
    }
  }

  lemma OpeningKeeps(g: Graph, s: Sym)
    requires s in g && Short(g, s)
    ensures Inv(g, s, Opening(g, s))
  {
    hide Chase, End, Short, Seen;
    StartIs(g, s);
    var b := Opening(g, s);
    forall i | 0 <= i < |b.all| ensures Labeled(g, s, b.all[i], b.ls[i]) { assert b.ls[i] == [i] && [i][1..] == []; }
  }

  lemma WalkEnds(g: Graph, s: Sym) returns (f: Board)
    requires s in g && Regular(g, s)
    ensures Inv(g, s, f) && f.m == |f.all| && f.out == Arrivals(g, s)
  {
    hide Inv, Walk, Start, Terms, Short;
    OpeningKeeps(g, s);
    var b := Opening(g, s);
    assert b.all[0..] == Start(g, s).0;
    f := WalkCloses(g, s, b);
  }
}
