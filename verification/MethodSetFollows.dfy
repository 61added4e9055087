/** The walk follows the timetable: the board at its end solves the equations. */
module MethodSetFollows {
  import opened Basics
  import opened MethodSet
  import opened MethodSetLaw
  import opened MethodSetCover
  import opened MethodSetQueue
  import opened MethodSetRounds
  import opened MethodSetSchedule

  // ---- The board at the end is a timetable -------------------------------------------------------

  ghost predicate Over(g: Graph, s: Sym, f: Board)
    requires s in g
  {
    Inv(g, s, f) && f.m == |f.all| == |f.ls|
  }

  lemma HasEntry(all: seq<Entry>, i: nat)
    requires i < |all|
    ensures Has(all, all[i].sym)
  {
  }

  /** Where the board reads a declaration: at a start, at its entry, or where it was flattened. */
  ghost function LabelOf(g: Graph, s: Sym, f: Board, u: Sym): seq<nat>
    requires s in g && |f.all| == |f.ls| && (Has(f.all, u) || u in f.flat)
  {
    if Started(g, s, u) then
      var i: nat :| i < |Starts(g, s)| && Starts(g, s)[i].sym == u;
      [i]
    else if Has(f.all, u) then
      var j: nat :| j < |f.all| && f.all[j].sym == u;
      f.ls[j]
    else f.flat[u]
  }

  ghost function TableOf(g: Graph, s: Sym, f: Board): Timetable
    requires s in g && |f.all| == |f.ls|
  {
    map u | u in (set e | e in f.all :: e.sym) + f.flat.Keys :: LabelOf(g, s, f, u)
  }

  lemma TableHas(g: Graph, s: Sym, f: Board, u: Sym)
    requires s in g && |f.all| == |f.ls|
    ensures u in TableOf(g, s, f) <==> Has(f.all, u) || u in f.flat
    ensures u in TableOf(g, s, f) ==> TableOf(g, s, f)[u] == LabelOf(g, s, f, u)
  {
    hide LabelOf;
    if j: nat :| j < |f.all| && f.all[j].sym == u { assert f.all[j] in f.all; }
  }

  lemma TableStart(g: Graph, s: Sym, f: Board, i: nat)
    requires s in g && Over(g, s, f) && i < |Starts(g, s)|
    ensures var u := Starts(g, s)[i].sym; u in TableOf(g, s, f) && TableOf(g, s, f)[u] == [i]
    ensures i < |f.all| && f.all[i] == Starts(g, s)[i] && f.ls[i] == [i]
  {
    hide Starts, Started, LabelOf, TableOf, Inv;
    var u := Starts(g, s)[i].sym;
    StartEntry(g, s, f, i);
    HasEntry(f.all, i);
    TableHas(g, s, f, u);
    assert Starts(g, s)[i] in Starts(g, s) && Started(g, s, u) by { StartIsStarted(g, s, i); }
    var j := StartLabel(g, s, f, u);
    StartsApart(g, s);
  }

  lemma StartEntry(g: Graph, s: Sym, f: Board, i: nat)
    requires s in g && Over(g, s, f) && i < |Starts(g, s)|
    ensures i < |f.all| && f.all[i] == Starts(g, s)[i] && f.ls[i] == [i]
  {
    hide Starts, Labeled, Sorted, Seen, FlatOk, AllFinished, Distinct, Traced;
  }

  lemma StartIsStarted(g: Graph, s: Sym, i: nat)
    requires s in g && i < |Starts(g, s)|
    ensures Starts(g, s)[i] in Starts(g, s) && Started(g, s, Starts(g, s)[i].sym)
  {
    hide Starts;
    assert Starts(g, s)[i] in Starts(g, s);
  }

  lemma StartLabel(g: Graph, s: Sym, f: Board, u: Sym) returns (j: nat)
    requires s in g && |f.all| == |f.ls| && (Has(f.all, u) || u in f.flat) && Started(g, s, u)
    ensures j < |Starts(g, s)| && Starts(g, s)[j].sym == u && LabelOf(g, s, f, u) == [j]
  {
    hide Starts;
    var i := StartIndex(g, s, u);
    j :| j < |Starts(g, s)| && Starts(g, s)[j].sym == u && LabelOf(g, s, f, u) == [j];
  }

  lemma EntryTop(g: Graph, s: Sym, f: Board, j: nat)
    requires s in g && Over(g, s, f) && j < |f.all| && !Started(g, s, f.all[j].sym)
    ensures !f.all[j].top && |f.ls[j]| > 1 && Labeled(g, s, f.all[j], f.ls[j])
  {
    hide Starts, Sorted, Seen, FlatOk, AllFinished, Distinct, Traced, Parents, Deep, To, Way;
    LabelsLong(g, s, f, j);
    assert Labeled(g, s, f.all[j], f.ls[j]);
    if |f.ls[j]| == 1 { ShortWayStarted(g, s, f.ls[j]); }
  }

  /** Any other declaration has one entry, or was flattened once. */
  lemma TableEntry(g: Graph, s: Sym, f: Board, j: nat)
    requires s in g && Over(g, s, f) && j < |f.all| && !Started(g, s, f.all[j].sym)
    ensures var u := f.all[j].sym; u in TableOf(g, s, f) && TableOf(g, s, f)[u] == f.ls[j] && u !in f.flat
    ensures OwnRound(g, s, TableOf(g, s, f), f.all[j].sym)
  {
    hide Started, Sorted, Seen, FlatOk, AllFinished, Traced, Parents, Deep, To, Way, AllLabeled;
    var u := f.all[j].sym;
    TableHas(g, s, f, u);
    EntryTop(g, s, f, j);
    var k: nat :| k < |f.all| && f.all[k].sym == u && LabelOf(g, s, f, u) == f.ls[k];
    EntryTop(g, s, f, k);
    assert k == j;
  }

  lemma TableFlat(g: Graph, s: Sym, f: Board, u: Sym)
    requires s in g && Over(g, s, f) && u in f.flat && !Started(g, s, u)
    ensures u in TableOf(g, s, f) && TableOf(g, s, f)[u] == f.flat[u] && !Has(f.all, u)
  {
    hide Started, Inv;
    TableHas(g, s, f, u);
    if j: nat :| j < |f.all| && f.all[j].sym == u { TableEntry(g, s, f, j); }
  }

  // ---- Starts that are met again --------------------------------------------------------------------

  /** An entry that is no start lies below a struct, the one start that is. */
  lemma BelowStruct(g: Graph, s: Sym, f: Board, j: nat, t: Sym)
    requires s in g && Over(g, s, f) && j < |f.all| && |f.ls[j]| > 1 && Started(g, s, t)
    ensures t in g && (g[t].shape.Struct? || g[t].shape.Named?)
  {
    hide Sorted, Seen, FlatOk, AllFinished, Distinct, Traced, Parents, Starts, Next;
    assert Labeled(g, s, f.all[j], f.ls[j]);
    var l := f.ls[j];
    HopsAtMost(g, Next(g, Starts(g, s)[l[0]].sym, l[1..][0]).value, l[1..][1..]);
    StartsApart(g, s);
    NextRefers(g, Starts(g, s)[l[0]].sym, l[1]);
    assert Starts(g, s)[l[0]] in Starts(g, s);
  }

  /** A start that is flattened again is read where it was. */
  lemma StartFlat(g: Graph, s: Sym, f: Board, u: Sym)
    requires s in g && Over(g, s, f) && u in f.flat && Started(g, s, u)
    ensures u in TableOf(g, s, f) && TableOf(g, s, f)[u] == f.flat[u]
  {
    hide Sorted, Seen, AllFinished, Distinct, Traced, Starts, Route, Last, Through, Labeled, Spread, Started;
    assert Rooted(g, f.all, f.ls, f.m, f.flat, u) && Spread(g, f.all, f.ls, f.flat, f.out, u);
    var i: nat, route: seq<nat> :| i < f.m && f.ls[i] == f.flat[u] && IsInterface(g, Some(f.all[i].sym)) && route != []
      && Route(g, f.all[i].sym, route) && Last(g, f.all[i].sym, route) == u
      && Through(g, f.all[i].sym, route, Flats(f.flat, f.ls[i]));
    assert g[u].shape.Interface? by { InterfaceRoute(g, f.all[i].sym, route); }
    LabelsLong(g, s, f, i);
    if |f.ls[i]| > 1 { BelowStruct(g, s, f, i, u); }
    ShortEntry(g, s, f, i);
    StartsApart(g, s);
    OneInterface(g, s, f.all[i].sym, u);
    TableStart(g, s, f, f.ls[i][0]);
  }

  lemma ShortEntry(g: Graph, s: Sym, f: Board, i: nat)
    requires s in g && Over(g, s, f) && i < |f.all| && |f.ls[i]| == 1
    ensures f.ls[i][0] < |Starts(g, s)| && f.all[i].sym == Starts(g, s)[f.ls[i][0]].sym && Started(g, s, f.all[i].sym)
  {
    hide Sorted, Seen, FlatOk, AllFinished, Distinct, Traced, Parents, Starts, Deep;
    assert Labeled(g, s, f.all[i], f.ls[i]);
    assert f.ls[i][1..] == [];
    assert Starts(g, s)[f.ls[i][0]] in Starts(g, s);
  }

  /** One start at most is an interface. */
  lemma OneInterface(g: Graph, s: Sym, t: Sym, u: Sym)
    requires s in g && Started(g, s, t) && Started(g, s, u) && IsInterface(g, Some(t)) && IsInterface(g, Some(u))
    ensures t == u
  {
    hide End;
  }

  /** A struct start that is met again pushes nothing then. */
  lemma StartPushes(g: Graph, s: Sym, f: Board, p: nat, j: nat, k: nat)
    requires s in g && Over(g, s, f) && p < |f.all| && j < |f.all| && f.ls[j] == f.ls[p] + [k]
    requires !Started(g, s, f.all[j].sym) && Started(g, s, f.all[p].sym)
    requires f.all[p].sym in g && g[f.all[p].sym].shape.Struct? && Next(g, f.all[p].sym, k) == Some(f.all[j].sym)
    ensures |f.ls[p]| == 1
  {
    hide Sorted, Seen, FlatOk, Traced, Starts, Labeled, Before, Next, Refers, Methods, Started;
    var t, u := f.all[p].sym, f.all[j].sym;
    var i := StartIndex(g, s, t);
    TableStart(g, s, f, i);
    assert Finished(g, f.all, f.ls, i, f.flat, f.out);
    NextRefers(g, t, k);
    assert Placed(f.all, f.ls, f.flat, u, [i], k);
    TableEntry(g, s, f, j);
    var h :| 0 <= h < |f.all| && f.all[h].sym == u && NotAfter(f.ls[h], [i] + [k]);
    TableEntry(g, s, f, h);
    NotAfterLong(f.ls[h], [i] + [k]);
    LabelsLong(g, s, f, p);
  }

  lemma StartIndex(g: Graph, s: Sym, t: Sym) returns (i: nat)
    requires s in g && Started(g, s, t)
    ensures i < |Starts(g, s)| && Starts(g, s)[i].sym == t
  {
    var e :| e in Starts(g, s) && e.sym == t;
    i :| 0 <= i < |Starts(g, s)| && Starts(g, s)[i] == e;
  }

  lemma ShortWayStarted(g: Graph, s: Sym, l: seq<nat>)
    requires s in g && Way(g, s, l) && |l| == 1
    ensures Started(g, s, To(g, s, l))
  {
    assert l[1..] == [] && Starts(g, s)[l[0]] in Starts(g, s);
  }

  // ---- The equations hold ----------------------------------------------------------------------------

  lemma TableOnWays(g: Graph, s: Sym, f: Board)
    requires s in g && Over(g, s, f)
    ensures OnWays(g, s, TableOf(g, s, f))
  {
    hide TableOf, Over, Way, Deep, Started;
    OverLong(g, s, f);
    var at := TableOf(g, s, f);
    forall t: Sym | t in at ensures t in g && at[t] != [] && Way(g, s, at[t]) && Deep(g, s, at[t]) == |at[t]| - 1 {
      TableHas(g, s, f, t);
      if Started(g, s, t) {
        var i := StartIndex(g, s, t);
        TableStart(g, s, f, i);
        StartWay(g, s, i);
      } else if t in f.flat {
        TableFlat(g, s, f, t);
        FlatWay(g, s, f, t);
      } else {
        var j: nat :| j < |f.all| && f.all[j].sym == t;
        TableEntry(g, s, f, j);
        EntryWay(g, s, f, j);
      }
    }
  }

  lemma OverLong(g: Graph, s: Sym, f: Board)
    requires s in g && Over(g, s, f)
    ensures f.m == |f.all| == |f.ls|
  {
    hide Inv;
  }

  lemma StartWay(g: Graph, s: Sym, i: nat)
    requires s in g && i < |Starts(g, s)|
    ensures Way(g, s, [i]) && Deep(g, s, [i]) == 0 && To(g, s, [i]) == Starts(g, s)[i].sym
  {
    assert [i][1..] == [];
    assert Starts(g, s)[i] in Starts(g, s);
  }

  lemma EntryWay(g: Graph, s: Sym, f: Board, j: nat)
    requires s in g && Over(g, s, f) && j < |f.all|
    ensures f.all[j].sym in g && f.ls[j] != [] && Way(g, s, f.ls[j]) && Deep(g, s, f.ls[j]) == |f.ls[j]| - 1
    ensures To(g, s, f.ls[j]) == f.all[j].sym
  {
    hide Sorted, Seen, FlatOk, AllFinished, Distinct, Traced, Parents, Way, Deep, To;
    LabelsLong(g, s, f, j);
    assert Labeled(g, s, f.all[j], f.ls[j]);
  }

  /** The interface in whose round it was flattened. */
  lemma FlatRoot(g: Graph, s: Sym, f: Board, u: Sym) returns (i: nat, route: seq<nat>)
    requires s in g && Over(g, s, f) && u in f.flat
    ensures i < |f.all| && f.ls[i] == f.flat[u] && IsInterface(g, Some(f.all[i].sym)) && route != []
    ensures Route(g, f.all[i].sym, route) && Last(g, f.all[i].sym, route) == u
    ensures Through(g, f.all[i].sym, route, Flats(f.flat, f.ls[i]))
    ensures u in g && g[u].shape.Interface?
  {
    hide Sorted, Seen, AllFinished, Distinct, Traced, Parents, Route, Last, Through, AllLabeled;
    assert Rooted(g, f.all, f.ls, f.m, f.flat, u);
    i, route :| i < f.m && f.ls[i] == f.flat[u] && IsInterface(g, Some(f.all[i].sym)) && route != []
      && Route(g, f.all[i].sym, route) && Last(g, f.all[i].sym, route) == u
      && Through(g, f.all[i].sym, route, Flats(f.flat, f.ls[i]));
    InterfaceRoute(g, f.all[i].sym, route);
  }

  lemma FlatWay(g: Graph, s: Sym, f: Board, u: Sym)
    requires s in g && Over(g, s, f) && u in f.flat
    ensures u in g && f.flat[u] != [] && Way(g, s, f.flat[u]) && Deep(g, s, f.flat[u]) == |f.flat[u]| - 1
  {
    hide Over, Way, Deep, Route, Last, Through;
    var i, route := FlatRoot(g, s, f, u);
    EntryWay(g, s, f, i);
  }

  lemma TableStarts(g: Graph, s: Sym, f: Board)
    requires s in g && Over(g, s, f)
    ensures StartsFirst(g, s, TableOf(g, s, f))
  {
    hide TableOf, Over, Starts;
    forall i: nat | i < |Starts(g, s)|
      ensures |f.all| == |f.ls| && var u := Starts(g, s)[i].sym; u in TableOf(g, s, f) && TableOf(g, s, f)[u] == [i]
    {
      OverLong(g, s, f);
      TableStart(g, s, f, i);
    }
    OverLong(g, s, f);
  }

  /** Flattened together, read together. */
  lemma FlatsRead(g: Graph, s: Sym, f: Board, l: seq<nat>, v: Sym)
    requires s in g && Over(g, s, f) && v in Flats(f.flat, l)
    ensures v in ReadIn(TableOf(g, s, f), l)
  {
    hide TableOf, Over, Started;
    OverLong(g, s, f);
    if Started(g, s, v) { StartFlat(g, s, f, v); } else { TableFlat(g, s, f, v); }
  }

  lemma FlatGrounded(g: Graph, s: Sym, f: Board, u: Sym)
    requires s in g && Over(g, s, f) && u in f.flat && !Started(g, s, u)
    ensures u in TableOf(g, s, f) && Grounded(g, s, TableOf(g, s, f), u)
  {
    hide TableOf, Over, Started, Way, To, Deep, Route, Last, FieldOf, Through;
    OverLong(g, s, f);
    var at := TableOf(g, s, f);
    TableFlat(g, s, f, u);
    var i, route := FlatRoot(g, s, f, u);
    EntryWay(g, s, f, i);
    var v := f.all[i].sym;
    if Started(g, s, v) { StartedInterface(g, s, f, i); } else { TableEntry(g, s, f, i); }
    forall w | w in Flats(f.flat, f.ls[i]) ensures w in ReadIn(at, f.ls[i]) { FlatsRead(g, s, f, f.ls[i], w); }
    ThroughMore(g, v, route, Flats(f.flat, f.ls[i]), ReadIn(at, f.ls[i]));
    HasEntry(f.all, i);
    assert v != u;
    assert FlatUnder(g, s, at, u, route);
  }

  lemma StartedInterface(g: Graph, s: Sym, f: Board, i: nat)
    requires s in g && Over(g, s, f) && i < |f.all| && IsInterface(g, Some(f.all[i].sym)) && Started(g, s, f.all[i].sym)
    ensures f.all[i].sym in TableOf(g, s, f) && TableOf(g, s, f)[f.all[i].sym] == f.ls[i]
  {
    hide TableOf, Inv, Started, Starts;
    EntryWay(g, s, f, i);
    if |f.ls[i]| > 1 { BelowStruct(g, s, f, i, f.all[i].sym); }
    ShortEntry(g, s, f, i);
    TableStart(g, s, f, f.ls[i][0]);
  }

  lemma EntryGrounded(g: Graph, s: Sym, f: Board, j: nat)
    requires s in g && Over(g, s, f) && j < |f.all| && !Started(g, s, f.all[j].sym)
    ensures f.all[j].sym in TableOf(g, s, f) && FieldOf(g, s, TableOf(g, s, f), f.all[j].sym)
  {
    hide TableOf, Over, Started, Way, To, Deep, Next;
    OverLong(g, s, f);
    var at, u, l := TableOf(g, s, f), f.all[j].sym, f.ls[j];
    TableEntry(g, s, f, j);
    EntryTop(g, s, f, j);
    var p := ParentOf(g, s, f, j);
    var k := l[|l| - 1];
    assert l == f.ls[p] + [k] && Above(l) == f.ls[p];
    EntryWay(g, s, f, p);
    EntryWay(g, s, f, j);
    FieldStruct(g, s, f.ls[p], k);
    var t := f.all[p].sym;
    if Started(g, s, t) {
      StartPushes(g, s, f, p, j, k);
      ShortEntry(g, s, f, p);
      TableStart(g, s, f, f.ls[p][0]);
    } else {
      TableEntry(g, s, f, p);
    }
  }

  lemma ParentOf(g: Graph, s: Sym, f: Board, j: nat) returns (p: nat)
    requires s in g && Over(g, s, f) && j < |f.all| && |f.ls[j]| > 1
    ensures p < |f.all| && f.ls[j] == f.ls[p] + [f.ls[j][|f.ls[j]| - 1]]
  {
    hide Sorted, Seen, FlatOk, AllFinished, Distinct, Traced, AllLabeled, Starts;
    p :| 0 <= p < f.m && p < |f.ls| && f.ls[j] == f.ls[p] + [f.ls[j][|f.ls[j]| - 1]];
  }

  /** Over struct fields every step is a struct's. */
  lemma FieldStruct(g: Graph, s: Sym, p: seq<nat>, k: nat)
    requires s in g && p != [] && Way(g, s, p + [k]) && Deep(g, s, p + [k]) == |p|
    ensures Way(g, s, p) && g[To(g, s, p)].shape.Struct? && Next(g, To(g, s, p), k) == Some(To(g, s, p + [k]))
  {
    hide Starts, Next;
    WaySnoc(g, s, p, k);
    DeepAtMost(g, s, p);
  }

  lemma TableGrounded(g: Graph, s: Sym, f: Board)
    requires s in g && Over(g, s, f)
    ensures AllGrounded(g, s, TableOf(g, s, f))
  {
    hide TableOf, Over, Started, FieldOf;
    OverLong(g, s, f);
    forall u: Sym | u in TableOf(g, s, f) && !Started(g, s, u) ensures Grounded(g, s, TableOf(g, s, f), u) {
      TableHas(g, s, f, u);
      if u in f.flat {
        FlatGrounded(g, s, f, u);
      } else {
        var j: nat :| j < |f.all| && f.all[j].sym == u;
        EntryGrounded(g, s, f, j);
      }
    }
  }

  // ---- In time ------------------------------------------------------------------------------------------

  /** What a round finds met is read in time for it. */
  lemma PlacedTimely(g: Graph, s: Sym, f: Board, t: Sym, k: nat)
    requires s in g && Over(g, s, f) && t in g && g[t].shape.Struct? && Next(g, t, k).Some? && t in TableOf(g, s, f)
    requires TableOf(g, s, f)[t] != [] && Placed(f.all, f.ls, f.flat, Next(g, t, k).value, TableOf(g, s, f)[t], k)
    ensures Next(g, t, k).value in TableOf(g, s, f) && Timely(g, s, TableOf(g, s, f), t, k)
  {
    hide TableOf, Over, Started, Next, Lex, Way, To;
    OverLong(g, s, f);
    var at, u := TableOf(g, s, f), Next(g, t, k).value;
    TableHas(g, s, f, u);
    if Started(g, s, u) {
      StartOwn(g, s, f, u);
    } else if u in f.flat && Before(f.flat[u], at[t]) {
      FlatOwn(g, s, f, u);
    } else {
      var j :| 0 <= j < |f.all| && f.all[j].sym == u && NotAfter(f.ls[j], at[t] + [k]);
      TableEntry(g, s, f, j);
    }
  }

  lemma OnTimeTimely(g: Graph, s: Sym, f: Board, t: Sym, k: nat)
    requires s in g && Over(g, s, f) && t in g && g[t].shape.Interface? && Next(g, t, k).Some? && t in TableOf(g, s, f)
    requires TableOf(g, s, f)[t] != [] && OnTime(f.all, f.ls, f.flat, Next(g, t, k).value, TableOf(g, s, f)[t])
    ensures Next(g, t, k).value in TableOf(g, s, f) && Timely(g, s, TableOf(g, s, f), t, k)
  {
    hide TableOf, Over, Started, Next, Lex, Way, To;
    OverLong(g, s, f);
    var at, u := TableOf(g, s, f), Next(g, t, k).value;
    TableHas(g, s, f, u);
    if Started(g, s, u) {
      StartOwn(g, s, f, u);
    } else if u in f.flat && NotAfter(f.flat[u], at[t]) {
      FlatOwn(g, s, f, u);
    } else {
      var j :| 0 <= j < |f.all| && f.all[j].sym == u && f.ls[j] != [] && Before(Above(f.ls[j]), at[t]);
      TableEntry(g, s, f, j);
    }
  }

  lemma StartOwn(g: Graph, s: Sym, f: Board, u: Sym)
    requires s in g && Over(g, s, f) && Started(g, s, u)
    ensures u in TableOf(g, s, f) && |TableOf(g, s, f)[u]| == 1 && OwnRound(g, s, TableOf(g, s, f), u)
  {
    hide TableOf, Inv, Starts;
    var i := StartIndex(g, s, u);
    TableStart(g, s, f, i);
    StartWay(g, s, i);
  }

  lemma FlatOwn(g: Graph, s: Sym, f: Board, u: Sym)
    requires s in g && Over(g, s, f) && u in f.flat && !Started(g, s, u)
    ensures u in TableOf(g, s, f) && TableOf(g, s, f)[u] == f.flat[u] && !OwnRound(g, s, TableOf(g, s, f), u)
  {
    hide TableOf, Inv, Started, Way, To, Route, Last, Through;
    TableFlat(g, s, f, u);
    var i, route := FlatRoot(g, s, f, u);
    EntryWay(g, s, f, i);
    HasEntry(f.all, i);
  }

  /** The round in which a declaration is read is done. */
  lemma ReadDone(g: Graph, s: Sym, f: Board, t: Sym, k: nat)
    requires s in g && Over(g, s, f) && t in TableOf(g, s, f) && t in g && Next(g, t, k).Some?
    ensures TableOf(g, s, f)[t] != [] && |f.all| == |f.ls|
    ensures if g[t].shape.Interface? then OnTime(f.all, f.ls, f.flat, Next(g, t, k).value, TableOf(g, s, f)[t])
      else g[t].shape.Struct? && Placed(f.all, f.ls, f.flat, Next(g, t, k).value, TableOf(g, s, f)[t], k)
  {
    hide TableOf, Over, Started, Next, OnTime, Placed;
    OverLong(g, s, f);
    TableHas(g, s, f, t);
    NextRefers(g, t, k);
    if Started(g, s, t) {
      var i := StartIndex(g, s, t);
      TableStart(g, s, f, i);
      EntryDone(g, s, f, i, k);
    } else if t in f.flat {
      TableFlat(g, s, f, t);
      FlatDone(g, s, f, t, k);
    } else {
      var j: nat :| j < |f.all| && f.all[j].sym == t;
      TableEntry(g, s, f, j);
      EntryWay(g, s, f, j);
      EntryDone(g, s, f, j, k);
    }
  }

  lemma NextIsEnd(g: Graph, t: Sym, k: nat)
    requires t in g && Next(g, t, k).Some?
    ensures Refers(g, t, k) && Ends(g, Target(g, t, k), Next(g, t, k).value)
    ensures g[t].shape.Interface? || g[t].shape.Struct?
  {
    hide End;
    assert End(g, Target(g, t, k), LAYERS) == Next(g, t, k);
  }

  lemma EntryDone(g: Graph, s: Sym, f: Board, j: nat, k: nat)
    requires s in g && Over(g, s, f) && j < |f.all| && f.all[j].sym in g && Next(g, f.all[j].sym, k).Some?
    ensures var t := f.all[j].sym;
      if g[t].shape.Interface? then OnTime(f.all, f.ls, f.flat, Next(g, t, k).value, f.ls[j])
      else g[t].shape.Struct? && Placed(f.all, f.ls, f.flat, Next(g, t, k).value, f.ls[j], k)
  {
    hide AllLabeled, Sorted, Seen, FlatOk, Distinct, Traced, Parents, Next, OnTime, Placed, Listed, Ends, Refers;
    hide Methods;
    NextIsEnd(g, f.all[j].sym, k);
    assert Finished(g, f.all, f.ls, j, f.flat, f.out);
  }

  lemma FlatDone(g: Graph, s: Sym, f: Board, u: Sym, k: nat)
    requires s in g && Over(g, s, f) && u in f.flat && u in g && Next(g, u, k).Some?
    ensures f.flat[u] != [] && g[u].shape.Interface?
    ensures OnTime(f.all, f.ls, f.flat, Next(g, u, k).value, f.flat[u])
  {
    hide AllLabeled, Sorted, Seen, AllFinished, Distinct, Traced, Parents, Next, OnTime, Listed, Ends, Refers, Rooted;
    NextIsEnd(g, u, k);
    assert Spread(g, f.all, f.ls, f.flat, f.out, u);
  }

  lemma TableTimely(g: Graph, s: Sym, f: Board)
    requires s in g && Over(g, s, f)
    ensures AllTimely(g, s, TableOf(g, s, f))
  {
    hide TableOf, Over, Next, OnTime, Placed, Timely;
    OverLong(g, s, f);
    forall t: Sym, k: nat | t in TableOf(g, s, f) && t in g && Next(g, t, k).Some?
      ensures Next(g, t, k).value in TableOf(g, s, f) && Timely(g, s, TableOf(g, s, f), t, k)
    {
      ReadDone(g, s, f, t, k);
      if g[t].shape.Interface? { OnTimeTimely(g, s, f, t, k); } else { PlacedTimely(g, s, f, t, k); }
    }
  }

  /** The walk follows a timetable. */
  lemma WalkSchedule(g: Graph, s: Sym) returns (f: Board)
    requires s in g && Regular(g, s)
    ensures Over(g, s, f) && f.out == Arrivals(g, s)
    ensures Schedule(g, s, TableOf(g, s, f))
  {
    hide Inv, Regular, TableOf, OnWays, StartsFirst, AllTimely, AllGrounded, Arrivals;
    f := WalkEnds(g, s);
    assert |f.all| == |f.ls| by { InvLong(g, s, f); }
    TableOnWays(g, s, f);
    TableStarts(g, s, f);
    TableTimely(g, s, f);
    TableGrounded(g, s, f);
  }

  lemma InvLong(g: Graph, s: Sym, f: Board)
    requires s in g && Inv(g, s, f)
    ensures |f.all| == |f.ls|
  {
    hide Labeled, Sorted, Seen, FlatOk, AllFinished, Distinct, Traced, Parents;
  }
}
