/** Where the method set is not the one Go's rule gives. */
module MethodSetGaps {
  import opened Basics
  import opened MethodSet
  import opened MethodSetRecord
  import opened MethodSetLaw
  import opened MethodSetCover
  import opened MethodSetQueue
  import opened MethodSetSchedule
  import opened MethodSetExact
  import opened Promotion
  import opened MethodSetMeets

  // ---- Defined layers -----------------------------------------------------------------------------

  lemma {:induction false} LastPlain(g: Graph, t: Sym, route: seq<nat>)
    requires t in g && Route(g, t, route)
    ensures route == [] || !g[Last(g, t, route)].shape.Named?
    decreases |route|
  {
    hide Next;
    if route != [] {
      PlainNext(g, t, route[0]);
      LastPlain(g, Next(g, t, route[0]).value, route[1..]);
    }
  }

  lemma KeptArrives(g: Graph, s: Sym, a: Arrival) returns (e: Entry, route: seq<nat>)
    requires s in g && InMethodSet(g, s, a)
    ensures a in Arrivals(g, s) && e in Start(g, s).0 && Provides(g, e, route, a)
  {
    hide Walk, NoteAll, Start, Provides;
    ArrivalsOrdered(g, s);
    KeptIff(Arrivals(g, s), a);
    e, route := WalkSound(g, Start(g, s).0, Start(g, s).1, a);
  }

  lemma StartPlain(g: Graph, s: Sym, e: Entry)
    requires s in g && e in Start(g, s).0
    ensures e.sym in g && (e.sym == s || !g[e.sym].shape.Named?)
  {
    hide Chase, End;
    if e.sym != s {
      ChaseEnds(g, g[s].shape.next, {}, LAYERS);
      EndIsPlain(g, g[s].shape.next, LAYERS);
    }
  }

  /** No method of a type defined by another's name is promoted, though the rule promotes it. */
  lemma DefinedMisses(g: Graph, s: Sym, name: string, depth: nat, t: Sym)
    requires s in g && t in g && g[t].shape.Named? && t != s && !OverInterface(g, t) && Promoted(g, s, name, depth, t)
    ensures Source(g, t, name, t) && !InMethodSet(g, s, Arrival(name, depth, t))
  {
    hide InMethodSet, Promoted, OverInterface, Start;
    if InMethodSet(g, s, Arrival(name, depth, t)) {
      var e, route := KeptArrives(g, s, Arrival(name, depth, t));
      StartPlain(g, s, e);
      LastPlain(g, e.sym, route);
    }
  }

  // ---- More than eight layers -----------------------------------------------------------------------

  /** The declaration has the name, whatever its receiver. */
  predicate HasName(g: Graph, t: Sym, name: string)
    requires t in g
  {
    Specifies(g, t, name) || DeclaresMethod(g, t, name, true)
  }

  /** A member's declaration is on a way of at most eight layers a spelling, and has the name. */
  lemma KeptOn(g: Graph, s: Sym, a: Arrival)
    requires s in g && InMethodSet(g, s, a)
    ensures On(g, s, a.src) && a.src in g && HasName(g, a.src, a.name)
  {
    hide InMethodSet, Route, Last, Hops, CrossesPtr, Start, Starts;
    var e, route := KeptArrives(g, s, a);
    StartInStarts(g, s, e);
  }

  lemma StartInStarts(g: Graph, s: Sym, e: Entry)
    requires s in g && e in Start(g, s).0
    ensures e in Starts(g, s)
  {
    hide Chase, End;
    if e.sym != s { ChaseEnds(g, g[s].shape.next, {}, LAYERS); }
  }

  /** A name is not in the set, promoted or not, when nothing has it that a way of at most eight layers
      a spelling leads to. */
  lemma BeyondMisses(g: Graph, s: Sym, a: Arrival)
    requires s in g && forall t: Sym :: On(g, s, t) && t in g ==> !HasName(g, t, a.name)
    ensures !InMethodSet(g, s, a)
  {
    hide InMethodSet, On, HasName;
    if InMethodSet(g, s, a) { KeptOn(g, s, a); }
  }

  // ---- One name from two declarations ----------------------------------------------------------------

  /** An interface that has a name from two declarations is one member for the rule; the code
      drops the name. */
  lemma TwoDeclarersMiss(g: Graph, s: Sym, at: Timetable, name: string, depth: nat, t: Sym, d: Sym, d': Sym, a: Arrival)
    requires s in g && Regular(g, s) && AllClear(g, s) && AliasBare(g, s) && Schedule(g, s, at) && NoneDeferred(g, at)
    requires Promoted(g, s, name, depth, t) && Source(g, t, name, d) && Source(g, t, name, d') && d != d'
    requires a.name == name
    ensures !InMethodSet(g, s, a)
  {
    hide Short, Terms, AllClear, InMethodSet, Offers, Reaches, On, OneMember, Schedule, NoneDeferred, Recorded, Hidden;
    hide Source;
    MetIff(g, s, at, a);
    var c := TwoRecorded(g, s, at, name, depth, t, d, d');
    var c' := TwoRecorded(g, s, at, name, depth, t, d', d);
    if InMethodSet(g, s, a) {
      RecordedReaches(g, s, at, a);
      var u := ReachOffers(g, s, a);
    }
  }

  lemma TwoRecorded(g: Graph, s: Sym, at: Timetable, name: string, depth: nat, t: Sym, d: Sym, d': Sym)
    returns (c: Arrival)
    requires s in g && Regular(g, s) && AllClear(g, s) && Schedule(g, s, at) && NoneDeferred(g, at)
    requires Offers(g, s, name, depth, t) && Source(g, t, name, d) && Source(g, t, name, d') && d != d'
    ensures Recorded(g, s, at, c) && c.name == name && c.src == d && c.depth <= depth
  {
    hide Short, Terms, AllClear, Offers, Reaches, On, Schedule, NoneDeferred, Recorded, Source, OverInterface;
    var a := OffersReach(g, s, name, depth, t, d);
    TwoSources(g, t, name, d, d');
    SourceKind(g, name, t, d);
    assert !Hidden(g, s, d);
    c := ReachesRecorded(g, s, at, a);
  }

  lemma TwoSources(g: Graph, t: Sym, name: string, d: Sym, d': Sym)
    requires Source(g, t, name, d) && Source(g, t, name, d') && d != d'
    ensures OverInterface(g, t)
  {
    hide OverInterface, Declares;
  }

  // ---- One input for each ------------------------------------------------------------------------------

  /** type S struct { D }, type D B, func (D) Y(), func (B) X(). */
  function DefinedLayer(): Graph {
    map[
      0 := Decl(Struct([Field(1, false)]), []),
      1 := Decl(Named(2, false), [Method("Y", false)]),
      2 := Decl(Opaque, [Method("X", false)])]
  }

  lemma PathSplit(g: Graph, t: Sym, route: seq<nat>, u: Sym, ptr: bool) returns (v: Sym, p: bool, q: bool)
    requires Path(g, t, route, u, ptr)
    ensures if route == [] then u == t && !ptr else Step(g, t, route[0], v, p) && Path(g, v, route[1..], u, q)
  {
    hide Step;
    if route == [] {
      v, p, q := t, false, false;
    } else {
      v, p, q :| Step(g, t, route[0], v, p) && Path(g, v, route[1..], u, q) && ptr == (p || q);
    }
  }

  lemma OneStep(g: Graph, t: Sym, k: nat, u: Sym, ptr: bool)
    requires Step(g, t, k, u, ptr)
    ensures Path(g, t, [k], u, ptr)
  {
    hide Step;
    assert [k][1..] == [] && [k][0] == k && Path(g, u, [], u, false);
    assert Step(g, t, [k][0], u, ptr) && Path(g, u, [k][1..], u, false) && ptr == (ptr || false);
  }

  /** S has Y through D by the rule, and no X; the code gives X and no Y. */
  lemma DefinedLayerHides()
    ensures var g := DefinedLayer();
      && Promoted(g, 0, "Y", 1, 1) && !InMethodSet(g, 0, Arrival("Y", 1, 1))
      && (forall d: nat, u: Sym :: !Offers(g, 0, "X", d, u)) && InMethodSet(g, 0, Arrival("X", 1, 2))
  {
    hide Promoted, Offers, InMethodSet;
    var g := DefinedLayer();
    DefinedLayerRule();
    DefinedLayerWalk();
    assert !OverInterface(g, 1) by { DefinedLayerEnds(); }
    DefinedMisses(g, 0, "Y", 1, 1);
  }

  lemma DefinedLayerEnds()
    ensures var g := DefinedLayer();
      && (forall w: Sym :: Ends(g, 0, w) <==> w == 0) && (forall w: Sym :: Ends(g, 1, w) <==> w == 2)
      && (forall w: Sym :: Ends(g, 2, w) <==> w == 2)
      && (forall w: Sym :: Denotes(g, 0, w) <==> w == 0) && (forall w: Sym :: Denotes(g, 1, w) <==> w == 1)
  {
    hide Ends, Denotes;
    var g := DefinedLayer();
    PlainOver(g, 0);
    PlainOver(g, 2);
    forall w: Sym ensures Ends(g, 1, w) <==> w == 2 { EndsNext(g, 1, w); }
    Stands(g, 0);
    Stands(g, 1);
  }

  lemma DefinedLayerRule()
    ensures var g := DefinedLayer();
      Promoted(g, 0, "Y", 1, 1) && forall d: nat, u: Sym :: !Offers(g, 0, "X", d, u)
  {
    hide Ends, Denotes, Path;
    var g := DefinedLayer();
    DefinedLayerEnds();
    assert FieldAt(g, 0, 0, 1, false) && Step(g, 0, 0, 1, false);
    OneStep(g, 0, 0, 1, false);
    assert !OverInterface(g, 0) && !OverInterface(g, 1);
    assert Method("Y", false) in g[1].methods;
    assert OffersBy(g, 0, "Y", 0, [0], 1, false);
    forall name: string, d: nat, u: Sym | Offers(g, 0, name, d, u) ensures d == 1 && u == 1 && name == "Y" {
      var e: Sym, route: seq<nat>, ptr: bool :| |route| == d && OffersBy(g, 0, name, e, route, u, ptr);
      var v, p, q := PathSplit(g, 0, route, u, ptr);
      if route != [] {
        assert FieldAt(g, 0, route[0], v, p) && v == 1;
        var v', p', q' := PathSplit(g, 1, route[1..], u, q);
      }
    }
  }

  lemma DefinedLayerWalk()
    ensures InMethodSet(DefinedLayer(), 0, Arrival("X", 1, 2))
  {
    hide Chase, Push, Round, Walk, NoteAll, Kept;
    var g := DefinedLayer();
    var a, b := Entry(0, false, 0, true), Entry(2, false, 1, false);
    DefinedLayerChase();
    PushOne(g, a, 0, {});
    PushNone(g, a, {1, 2});
    assert [b] + [] == [b] && Methods([], a) == [];
    StructRound(g, a, {}, [], ([b], {1, 2}));
    OneMethod(g[2].methods, b);
    OpaqueRound(g, b, {1, 2}, [Arrival("X", 1, 2)]);
    WalkOne(g, [a], {});
    WalkOne(g, [b], {1, 2});
    NothingQueued(g, {1, 2});
    assert [a][1..] + [b] == [b] && [b][1..] + [] == [];
    assert Arrivals(g, 0) == [Arrival("X", 1, 2)];
    ArrivalsOrdered(g, 0);
    KeptIff(Arrivals(g, 0), Arrival("X", 1, 2));
  }

  lemma DefinedLayerChase()
    ensures Chase(DefinedLayer(), 1, {}, LAYERS) == (Some(2), {1, 2})
  {
    assert {} + {1} + {2} == {1, 2};
  }

  lemma StructRound(g: Graph, e: Entry, visited: set<Sym>, ms: seq<Arrival>, q: (seq<Entry>, set<Sym>))
    requires e.sym in g && g[e.sym].shape.Struct? && ms == Methods(g[e.sym].methods, e) && q == Push(g, e, 0, visited)
    ensures Round(g, e, visited) == (ms, q.0, q.1)
  {
    hide Push, Methods;
  }

  lemma OneMethod(ms: seq<Method>, e: Entry)
    requires |ms| == 1 && Eligible(ms[0], e)
    ensures Methods(ms, e) == [Arrival(ms[0].name, e.depth, e.sym)]
  {
    assert ms[1..] == [] && Methods([], e) == [];
  }

  lemma OpaqueRound(g: Graph, e: Entry, visited: set<Sym>, ms: seq<Arrival>)
    requires e.sym in g && g[e.sym].shape.Opaque? && ms == Methods(g[e.sym].methods, e)
    ensures Round(g, e, visited) == (ms, [], visited)
  {
    hide Methods;
  }

  lemma InterfaceRound(g: Graph, e: Entry, visited: set<Sym>, r: (seq<Arrival>, set<Sym>))
    requires e.sym in g && g[e.sym].shape.Interface? && r == Flatten(g, e.sym, 0, e.depth, visited)
    ensures Round(g, e, visited) == (r.0, [], r.1)
  {
    hide Flatten;
  }

  lemma WalkOne(g: Graph, queue: seq<Entry>, visited: set<Sym>)
    requires (forall e :: e in queue ==> e.sym in g) && queue != []
    ensures var r := Round(g, queue[0], visited); Walk(g, queue, visited) == r.0 + Walk(g, queue[1..] + r.1, r.2)
  {
    hide Round;
  }

  /** type S struct { A1 }, type A1 = A2, ..., type A9 = T, func (T) X(). */
  function NineLayers(): Graph {
    map[
      0 := Decl(Struct([Field(1, false)]), []), 1 := Decl(Named(2, true), []), 2 := Decl(Named(3, true), []),
      3 := Decl(Named(4, true), []), 4 := Decl(Named(5, true), []), 5 := Decl(Named(6, true), []),
      6 := Decl(Named(7, true), []), 7 := Decl(Named(8, true), []), 8 := Decl(Named(9, true), []),
      9 := Decl(Named(10, true), []), 10 := Decl(Opaque, [Method("X", false)])]
  }

  lemma {:induction false} NineLayersDown(j: nat)
    requires j <= 9
    ensures Unalias(NineLayers(), 10 - j, j + 1) == Some(10)
    ensures j > 0 ==> End(NineLayers(), 10 - j, j).None?
  {
    if j > 0 { NineLayersDown(j - 1); }
  }

  /** S has X by the rule; the code gives nothing. */
  lemma NineLayersHide(a: Arrival)
    ensures Promoted(NineLayers(), 0, "X", 1, 10) && !InMethodSet(NineLayers(), 0, a)
  {
    hide InMethodSet, On, Denotes, Path, Ends, End, Unalias, OverInterface;
    var g := NineLayers();
    NineLayersRule();
    NineLayersFar();
    BeyondMisses(g, 0, a);
  }

  lemma NineLayersFar()
    ensures forall t: Sym :: On(NineLayers(), 0, t) ==> t == 0
  {
    hide End;
    var g := NineLayers();
    NineLayersDown(9);
    if End(g, 1, LAYERS).Some? { EndMore(g, 1, 8, 9); }
    assert forall k: nat :: Next(g, 0, k).None?;
  }

  lemma NineLayersRule()
    ensures Promoted(NineLayers(), 0, "X", 1, 10)
  {
    hide Ends, Path, Unalias;
    var g := NineLayers();
    PlainOver(g, 0);
    PlainOver(g, 10);
    NineLayersDown(9);
    Stands(g, 0);
    assert Denotes(g, 1, 10);
    assert FieldAt(g, 0, 0, 10, false) && Step(g, 0, 0, 10, false);
    OneStep(g, 0, 0, 10, false);
    assert Method("X", false) in g[10].methods;
    assert OffersBy(g, 0, "X", 0, [0], 10, false);
    forall d: nat, u: Sym | Offers(g, 0, "X", d, u) ensures d > 1 || (d == 1 && u == 10) {
      var e: Sym, route: seq<nat>, ptr: bool :| |route| == d && OffersBy(g, 0, "X", e, route, u, ptr);
      var v, p, q := PathSplit(g, 0, route, u, ptr);
      if |route| == 1 {
        assert FieldAt(g, 0, 0, v, p);
        DenotesOne(g, 1, v, 10);
        var v', p', q' := PathSplit(g, v, route[1..], u, q);
      }
    }
  }

  /** type I interface { K; L }, type K interface { M() }, type L interface { M() }. */
  function Merged(): Graph {
    map[
      0 := Decl(Interface([Embedded(1), Embedded(2)]), []),
      1 := Decl(Interface([Spec("M")]), []),
      2 := Decl(Interface([Spec("M")]), [])]
  }

  lemma FlattenSpec(g: Graph, t: Sym, i: nat, depth: nat, visited: set<Sym>)
    requires IsInterface(g, Some(t)) && i < |g[t].shape.elems| && g[t].shape.elems[i].Spec?
    ensures var r := Flatten(g, t, i + 1, depth, visited);
      Flatten(g, t, i, depth, visited) == ([Arrival(g[t].shape.elems[i].name, depth, t)] + r.0, r.1)
  {
  }

  lemma FlattenInto(g: Graph, t: Sym, i: nat, depth: nat, visited: set<Sym>, u: Sym)
    requires IsInterface(g, Some(t)) && i < |g[t].shape.elems| && g[t].shape.elems[i] == Embedded(u)
    requires IsInterface(g, Some(u)) && u !in visited
    ensures var a := Flatten(g, u, 0, depth, visited + {u}); var b := Flatten(g, t, i + 1, depth, a.1);
      Flatten(g, t, i, depth, visited) == (a.0 + b.0, b.1)
  {
    hide Chase;
    ChasePlain(g, u, visited);
  }

  lemma FlattenNone(g: Graph, t: Sym, depth: nat, visited: set<Sym>)
    requires IsInterface(g, Some(t))
    ensures Flatten(g, t, |g[t].shape.elems|, depth, visited) == ([], visited)
  {
  }

  lemma MergedWalk()
    ensures Arrivals(Merged(), 0) == [Arrival("M", 0, 1), Arrival("M", 0, 2)]
  {
    hide Flatten, Round, Walk;
    var g := Merged();
    var e := Entry(0, false, 0, true);
    FlattenInto(g, 0, 0, 0, {}, 1);
    FlattenSpec(g, 1, 0, 0, {} + {1});
    FlattenNone(g, 1, 0, {} + {1});
    FlattenInto(g, 0, 1, 0, {} + {1}, 2);
    FlattenSpec(g, 2, 0, 0, {} + {1} + {2});
    FlattenNone(g, 2, 0, {} + {1} + {2});
    FlattenNone(g, 0, 0, {} + {1} + {2});
    var r := Flatten(g, 0, 0, 0, {});
    assert r.0 == [Arrival("M", 0, 1), Arrival("M", 0, 2)];
    InterfaceRound(g, e, {}, r);
    WalkOne(g, [e], {});
    NothingQueued(g, r.1);
    assert [e][1..] + [] == [];
  }

  /** I has M by the rule; the code drops it. */
  lemma MergedDrops(a: Arrival)
    requires a.name == "M"
    ensures Promoted(Merged(), 0, "M", 0, 0) && !InMethodSet(Merged(), 0, a)
  {
    hide Walk, NoteAll, Kept, Arrivals;
    var g := Merged();
    MergedRule();
    MergedWalk();
    ArrivalsOrdered(g, 0);
    KeptIff(Arrivals(g, 0), a);
    assert Arrivals(g, 0)[0] == Arrival("M", 0, 1) && Arrivals(g, 0)[1] == Arrival("M", 0, 2);
  }

  lemma MergedRule()
    ensures Promoted(Merged(), 0, "M", 0, 0)
  {
    hide Ends, Path, Denotes;
    var g := Merged();
    PlainOver(g, 0);
    PlainOver(g, 1);
    Stands(g, 0);
    assert ElementAt(g, 0, 0, 1) && [0][1..] == [] && Inside(g, 1, [], 1);
    assert ElementAt(g, 0, [0][0], 1) && Inside(g, 1, [0][1..], 1);
    assert Inside(g, 0, [0], 1);
    assert Declares(g, 0, "M", 1);
    NoStep(g, 0);
    assert OffersBy(g, 0, "M", 0, [], 0, false);
    forall d: nat, u: Sym | Offers(g, 0, "M", d, u) ensures d > 0 || (d == 0 && u == 0) {
      var e: Sym, route: seq<nat>, ptr: bool :| |route| == d && OffersBy(g, 0, "M", e, route, u, ptr);
      var v, p, q := PathSplit(g, 0, route, u, ptr);
    }
  }

  /** type S struct { X; I }, type X struct { J; K }, type I interface { J }, and M in J and K. */
  function Entered(): Graph {
    map[
      0 := Decl(Struct([Field(1, false), Field(2, false)]), []),
      1 := Decl(Struct([Field(3, false), Field(4, false)]), []),
      2 := Decl(Interface([Embedded(3)]), []),
      3 := Decl(Interface([Spec("M")]), []),
      4 := Decl(Interface([Spec("M")]), [])]
  }

  lemma TwoFields(g: Graph, e: Entry, visited: set<Sym>, u: Sym, w: Sym)
    requires e.sym in g && u in g && w in g && !g[u].shape.Named? && !g[w].shape.Named? && u != w
    requires g[e.sym] == Decl(Struct([Field(u, false), Field(w, false)]), []) && u !in visited && w !in visited
    ensures var d := e.depth + 1;
      Round(g, e, visited) == ([], [Entry(u, e.ptr, d, false), Entry(w, e.ptr, d, false)], visited + {u, w})
  {
    hide Chase, Push;
    ChasePlain(g, u, visited);
    ChasePlain(g, w, visited + {u});
    PushOne(g, e, 0, visited);
    PushOne(g, e, 1, visited + {u});
    PushNone(g, e, visited + {u} + {w});
    var a, b := Entry(u, e.ptr, e.depth + 1, false), Entry(w, e.ptr, e.depth + 1, false);
    assert visited + {u} + {w} == visited + {u, w} && [a] + ([b] + []) == [a, b] && Methods([], e) == [];
    StructRound(g, e, visited, [], ([a, b], visited + {u, w}));
  }

  lemma OneSpec(g: Graph, e: Entry, visited: set<Sym>)
    requires e.sym in g && g[e.sym].shape.Interface? && g[e.sym].shape.elems == [Spec("M")]
    ensures Round(g, e, visited) == ([Arrival("M", e.depth, e.sym)], [], visited)
  {
    hide Flatten;
    FlattenSpec(g, e.sym, 0, e.depth, visited);
    FlattenNone(g, e.sym, e.depth, visited);
    assert [Arrival("M", e.depth, e.sym)] + [] == [Arrival("M", e.depth, e.sym)];
    InterfaceRound(g, e, visited, ([Arrival("M", e.depth, e.sym)], visited));
  }

  lemma ElementSeen(g: Graph, e: Entry, visited: set<Sym>, u: Sym)
    requires e.sym in g && g[e.sym].shape.Interface? && g[e.sym].shape.elems == [Embedded(u)]
    requires u in visited && u in g && !g[u].shape.Named?
    ensures Round(g, e, visited) == ([], [], visited)
  {
    hide Flatten;
    FlattenOver(g, e.sym, 0, e.depth, visited, u);
    FlattenNone(g, e.sym, e.depth, visited);
    InterfaceRound(g, e, visited, ([], visited));
  }

  lemma FlattenOver(g: Graph, t: Sym, i: nat, depth: nat, visited: set<Sym>, u: Sym)
    requires IsInterface(g, Some(t)) && i < |g[t].shape.elems| && g[t].shape.elems[i] == Embedded(u)
    requires u in visited && u in g && !g[u].shape.Named?
    ensures Flatten(g, t, i, depth, visited) == Flatten(g, t, i + 1, depth, visited)
  {
    hide Chase;
    ChasePlain(g, u, visited);
  }

  lemma EnteredWalk()
    ensures Arrivals(Entered(), 0) == [Arrival("M", 2, 3), Arrival("M", 2, 4)]
  {
    hide Round, Walk;
    var g := Entered();
    var s, x, i := Entry(0, false, 0, true), Entry(1, false, 1, false), Entry(2, false, 1, false);
    var j, k, v := Entry(3, false, 2, false), Entry(4, false, 2, false), {} + {1, 2} + {3, 4};
    TwoFields(g, s, {}, 1, 2);
    TwoFields(g, x, {} + {1, 2}, 3, 4);
    ElementSeen(g, i, v, 3);
    OneSpec(g, j, v);
    OneSpec(g, k, v);
    WalkOne(g, [s], {});
    assert [s][1..] + [x, i] == [x, i];
    WalkOne(g, [x, i], {} + {1, 2});
    assert [x, i][1..] + [j, k] == [i, j, k];
    WalkOne(g, [i, j, k], v);
    assert [i, j, k][1..] + [] == [j, k];
    WalkOne(g, [j, k], v);
    assert [j, k][1..] + [] == [k];
    WalkOne(g, [k], v);
    assert [k][1..] + [] == [];
    NothingQueued(g, v);
  }

  /** I has M from J at depth one by the rule; the code meets J first as a field, two deep, where K
      rivals it. */
  lemma EnteredDrops(a: Arrival)
    requires a.name == "M"
    ensures Promoted(Entered(), 0, "M", 1, 2) && !InMethodSet(Entered(), 0, a)
  {
    hide Walk, NoteAll, Kept, Arrivals;
    var g := Entered();
    EnteredRule();
    EnteredWalk();
    ArrivalsOrdered(g, 0);
    KeptIff(Arrivals(g, 0), a);
    assert Arrivals(g, 0)[0] == Arrival("M", 2, 3) && Arrivals(g, 0)[1] == Arrival("M", 2, 4);
  }

  lemma EnteredRule()
    ensures Promoted(Entered(), 0, "M", 1, 2)
  {
    hide Ends, Path, Denotes;
    var g := Entered();
    PlainOver(g, 0);
    PlainOver(g, 1);
    PlainOver(g, 2);
    PlainOver(g, 3);
    Stands(g, 0);
    Stands(g, 1);
    Stands(g, 2);
    assert ElementAt(g, 2, [0][0], 3) && Inside(g, 3, [0][1..], 3);
    assert Inside(g, 2, [0], 3);
    assert Declares(g, 2, "M", 3);
    assert FieldAt(g, 0, 1, 2, false) && Step(g, 0, 1, 2, false);
    OneStep(g, 0, 1, 2, false);
    assert OffersBy(g, 0, "M", 0, [1], 2, false);
    forall d: nat, u: Sym | Offers(g, 0, "M", d, u) ensures d > 1 || (d == 1 && u == 2) {
      var e: Sym, route: seq<nat>, ptr: bool :| |route| == d && OffersBy(g, 0, "M", e, route, u, ptr);
      var v, p, q := PathSplit(g, 0, route, u, ptr);
      if |route| == 1 {
        assert FieldAt(g, 0, route[0], v, p);
        var v', p', q' := PathSplit(g, v, route[1..], u, q);
      }
    }
  }

  /** type S struct { R; RW }, type RW interface { R; Write() }, type R interface { Read() }. */
  function ReadWriter(): Graph {
    map[
      0 := Decl(Struct([Field(1, false), Field(2, false)]), []),
      1 := Decl(Interface([Spec("Read")]), []),
      2 := Decl(Interface([Embedded(1), Spec("Write")]), [])]
  }

  lemma ReadWriterField()
    ensures FieldsOnly(ReadWriter(), 0, [0, 0]) && To(ReadWriter(), 0, [0, 0]) == 1
  {
    hide Chase, End;
    var g := ReadWriter();
    ChasePlain(g, 1, {});
    assert Next(g, 0, 0) == Some(1) && Starts(g, 0) == [Entry(0, false, 0, true)];
    RouteCons(g, 0, 0, []);
    assert [0, 0][1..] == [0] + [] && Route(g, 1, []);
  }

  /** R is embedded in S no deeper than RW, which lists it: nothing is deferred. */
  lemma ReadWriterInTime()
    ensures FieldsNoLater(ReadWriter(), 0)
  {
    hide End, Next;
    var g := ReadWriter();
    ReadWriterField();
    forall l: seq<nat>, k: nat, f: seq<nat> | Way(g, 0, l) && g[To(g, 0, l)].shape.Interface?
      && Next(g, To(g, 0, l), k).Some? && FieldsOnly(g, 0, f) && To(g, 0, f) == Next(g, To(g, 0, l), k).value
      ensures FieldsOnly(g, 0, [0, 0]) && To(g, 0, [0, 0]) == To(g, 0, f) && 1 <= Deep(g, 0, l)
    {
      ReadWriterBelow(To(g, 0, l), k);
      ReadWriterDeep(l);
    }
  }

  lemma ReadWriterBelow(t: Sym, k: nat)
    requires t in ReadWriter() && ReadWriter()[t].shape.Interface? && Next(ReadWriter(), t, k).Some?
    ensures Next(ReadWriter(), t, k).value == 1
  {
    ChasePlain(ReadWriter(), 1, {});
  }

  lemma ReadWriterDeep(l: seq<nat>)
    requires Way(ReadWriter(), 0, l) && ReadWriter()[To(ReadWriter(), 0, l)].shape.Interface?
    ensures 1 <= Deep(ReadWriter(), 0, l)
  {
    hide Next;
  }
}
