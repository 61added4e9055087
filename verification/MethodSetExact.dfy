/** The method set against the promotion rule: what the walk computes however many ways lead to a
    declaration, and when that is the rule. */
module MethodSetExact {
  import opened Basics
  import opened MethodSet
  import opened MethodSetRecord
  import opened MethodSetLaw
  import opened MethodSetCover
  import opened MethodSetQueue
  import opened MethodSetSchedule
  import opened MethodSetFollows

  // ---- What the walk records ---------------------------------------------------------------------

  /** A name of a declaration, at the depth at which the timetable reads it; methods by pointer where
      the way on which it is read crosses a pointer, or where the rule starts. */
  ghost predicate Recorded(g: Graph, s: Sym, at: Timetable, a: Arrival)
    requires s in g
  {
    && a.src in at && a.src in g && Way(g, s, at[a.src]) && a.depth == |at[a.src]| - 1
    && (Specifies(g, a.src, a.name)
        || DeclaresMethod(g, a.src, a.name, Started(g, s, a.src) || Crosses(g, s, at[a.src])))
  }

  lemma SpecListed(g: Graph, t: Sym, depth: nat, out: seq<Arrival>, name: string)
    requires t in g && g[t].shape.Interface? && Listed(g, t, 0, depth, out) && Specifies(g, t, name)
    ensures Arrival(name, depth, t) in out
  {
    var k :| 0 <= k < |g[t].shape.elems| && g[t].shape.elems[k] == Spec(name);
  }

  lemma InterfaceArrives(g: Graph, s: Sym, f: Board, a: Arrival)
    requires s in g && Over(g, s, f) && Recorded(g, s, TableOf(g, s, f), a) && Specifies(g, a.src, a.name)
    ensures a in f.out
  {
    hide TableOf, Over, Started, Listed, ElementsMet, Way, Crosses, DeclaresMethod;
    OverLong(g, s, f);
    var t := a.src;
    TableHas(g, s, f, t);
    if !Started(g, s, t) && t in f.flat {
      TableFlat(g, s, f, t);
      assert Spread(g, f.all, f.ls, f.flat, f.out, t) by { FlatSpreads(g, s, f, t); }
      SpecListed(g, t, a.depth, f.out, a.name);
    } else {
      var j := EntryOf(g, s, f, t);
      assert Finished(g, f.all, f.ls, j, f.flat, f.out) by { EntryFinished(g, s, f, j); }
      SpecListed(g, t, a.depth, f.out, a.name);
    }
  }

  lemma FlatSpreads(g: Graph, s: Sym, f: Board, u: Sym)
    requires s in g && Over(g, s, f) && u in f.flat
    ensures Spread(g, f.all, f.ls, f.flat, f.out, u)
  {
    hide AllLabeled, Sorted, Seen, AllFinished, Distinct, Traced, Parents, Spread, Rooted;
  }

  lemma EntryFinished(g: Graph, s: Sym, f: Board, j: nat)
    requires s in g && Over(g, s, f) && j < |f.all|
    ensures f.all[j].sym in g && Finished(g, f.all, f.ls, j, f.flat, f.out)
  {
    hide AllLabeled, Sorted, Seen, FlatOk, Distinct, Traced, Parents, Finished;
  }

  /** The entry at which a declaration is read that has one. */
  lemma EntryOf(g: Graph, s: Sym, f: Board, t: Sym) returns (j: nat)
    requires s in g && Over(g, s, f) && |f.all| == |f.ls| && t in TableOf(g, s, f) && (Started(g, s, t) || t !in f.flat)
    ensures j < |f.all| && f.all[j].sym == t && f.ls[j] == TableOf(g, s, f)[t] && f.all[j].depth == |f.ls[j]| - 1
    ensures t in g && Way(g, s, f.ls[j])
    ensures (f.all[j].top || f.all[j].ptr) == (Started(g, s, t) || Crosses(g, s, f.ls[j]))
  {
    hide TableOf, Inv, Started, Way, To, Deep, Crosses;
    TableHas(g, s, f, t);
    if Started(g, s, t) {
      j := StartIndex(g, s, t);
      TableStart(g, s, f, j);
    } else {
      j :| j < |f.all| && f.all[j].sym == t;
      TableEntry(g, s, f, j);
      EntryTop(g, s, f, j);
    }
    EntryWay(g, s, f, j);
    EntryFlags(g, s, f, j);
  }

  lemma EntryFlags(g: Graph, s: Sym, f: Board, j: nat)
    requires s in g && Over(g, s, f) && j < |f.all| && Way(g, s, f.ls[j])
    ensures f.all[j].depth == |f.ls[j]| - 1 && f.all[j].top == (|f.ls[j]| == 1)
    ensures f.all[j].ptr == Crosses(g, s, f.ls[j])
  {
    hide Sorted, Seen, FlatOk, AllFinished, Distinct, Traced, Parents, Way, To, Deep, Crosses;
    assert Labeled(g, s, f.all[j], f.ls[j]);
  }

  lemma MethodArrives(g: Graph, s: Sym, f: Board, a: Arrival)
    requires s in g && Over(g, s, f) && Recorded(g, s, TableOf(g, s, f), a) && !Specifies(g, a.src, a.name)
    ensures a in f.out
  {
    hide TableOf, Over, Started, Listed, ElementsMet, Way, Crosses, Placed, Methods, Specifies;
    OverLong(g, s, f);
    var t := a.src;
    TableHas(g, s, f, t);
    if !Started(g, s, t) && t in f.flat { var i, route := FlatRoot(g, s, f, t); }
    var j := EntryOf(g, s, f, t);
    EntryFinished(g, s, f, j);
    MethodsSound(g[t].methods, f.all[j], a);
    assert a in Methods(g[t].methods, f.all[j]);
  }

  /** Of an arrival the record has the name and the source, no deeper. */
  lemma ArrivalRecorded(g: Graph, s: Sym, f: Board, a: Arrival) returns (b: Arrival)
    requires s in g && Over(g, s, f) && a in f.out
    ensures Recorded(g, s, TableOf(g, s, f), b) && b.name == a.name && b.src == a.src && b.depth <= a.depth
  {
    hide TableOf, Over, Started, Way, Crosses, Methods;
    OverLong(g, s, f);
    var at, t := TableOf(g, s, f), a.src;
    assert From(g, f.all, f.m, f.flat, a) by { OutTraced(g, s, f, a); }
    FromRead(g, s, f, a);
    b := Arrival(a.name, |at[t]| - 1, t);
    if !g[t].shape.Interface? {
      var i :| 0 <= i < f.m && f.all[i].sym == t && a in Methods(g[t].methods, f.all[i]);
      MethodsSound(g[t].methods, f.all[i], a);
      if !Started(g, s, t) {
        TableEntry(g, s, f, i);
        EntryTop(g, s, f, i);
        EntryFlags(g, s, f, i);
      }
    }
  }

  lemma OutTraced(g: Graph, s: Sym, f: Board, a: Arrival)
    requires s in g && Over(g, s, f) && a in f.out
    ensures From(g, f.all, f.m, f.flat, a)
  {
    hide AllLabeled, Sorted, Seen, FlatOk, Distinct, AllFinished, Parents, From;
  }

  lemma FromEntry(g: Graph, f: Board, a: Arrival) returns (i: nat)
    requires f.m <= |f.all| && From(g, f.all, f.m, f.flat, a) && a.src !in f.flat
    ensures i < |f.all| && f.all[i].sym == a.src && f.all[i].depth == a.depth
  {
    hide Methods, Specifies;
    if g[a.src].shape.Interface? {
      i :| 0 <= i < f.m && f.all[i].sym == a.src && f.all[i].depth == a.depth;
    } else {
      i :| 0 <= i < f.m && f.all[i].sym == a.src && a in Methods(g[a.src].methods, f.all[i]);
      MethodsSound(g[a.src].methods, f.all[i], a);
    }
  }

  lemma FromRead(g: Graph, s: Sym, f: Board, a: Arrival)
    requires s in g && Over(g, s, f) && |f.all| == |f.ls| && From(g, f.all, f.m, f.flat, a)
    ensures var at := TableOf(g, s, f);
      a.src in at && at[a.src] != [] && Way(g, s, at[a.src]) && |at[a.src]| - 1 <= a.depth
  {
    hide TableOf, Over, Started, Way, To, Deep, Crosses, Methods, Specifies;
    OverLong(g, s, f);
    var t := a.src;
    TableHas(g, s, f, t);
    if Started(g, s, t) {
      var i := StartIndex(g, s, t);
      TableStart(g, s, f, i);
      StartWay(g, s, i);
    } else if t in f.flat {
      TableFlat(g, s, f, t);
      FlatWay(g, s, f, t);
      var i, route := FlatRoot(g, s, f, t);
      assert forall j :: 0 <= j < |f.all| ==> f.all[j].sym != t;
    } else {
      var i := FromEntry(g, f, a);
      TableEntry(g, s, f, i);
      EntryWay(g, s, f, i);
      EntryFlags(g, s, f, i);
    }
  }

  /** However many ways lead to a declaration: a member is in the method set exactly when its
      declaration alone has the name at the least depth at which the timetable reads it. */
  lemma MetIff(g: Graph, s: Sym, at: Timetable, a: Arrival)
    requires s in g && Regular(g, s) && Schedule(g, s, at)
    ensures InMethodSet(g, s, a) <==>
      Recorded(g, s, at, a)
      && forall b :: Recorded(g, s, at, b) && b.name == a.name ==> b.depth > a.depth || b == a
  {
    hide Regular, Schedule, Walk, Recorded, Arrivals, NoteAll, Kept, TableOf, Over;
    var f := WalkSchedule(g, s);
    OverLong(g, s, f);
    OneSchedule(g, s, at, TableOf(g, s, f));
    ArrivalsOrdered(g, s);
    KeptIff(f.out, a);
    forall b | Recorded(g, s, at, b) ensures b in f.out { RecordedArrives(g, s, f, b); }
    if Unrivalled(f.out, a) {
      var c := ArrivalRecorded(g, s, f, a);
    }
    if Recorded(g, s, at, a) && forall b :: Recorded(g, s, at, b) && b.name == a.name ==> b.depth > a.depth || b == a {
      forall b | b in f.out && b.name == a.name ensures b.depth > a.depth || b == a {
        var c := ArrivalRecorded(g, s, f, b);
      }
    }
  }

  lemma RecordedArrives(g: Graph, s: Sym, f: Board, a: Arrival)
    requires s in g && Over(g, s, f) && |f.all| == |f.ls| && Recorded(g, s, TableOf(g, s, f), a)
    ensures a in f.out
  {
    hide TableOf, Over, Started, Way, Crosses, DeclaresMethod;
    if Specifies(g, a.src, a.name) { InterfaceArrives(g, s, f, a); } else { MethodArrives(g, s, f, a); }
  }

  lemma ArrivalsOrdered(g: Graph, s: Sym)
    requires s in g
    ensures Ordered(Arrivals(g, s))
  {
    WalkOrdered(g, Start(g, s).0, Start(g, s).1, 0);
  }

  // ---- When that is the rule --------------------------------------------------------------------------

  /** The member's declaration is the only one that provides its name at the least depth at which
      any does. */
  ghost predicate InRule(g: Graph, s: Sym, a: Arrival)
    requires s in g
  {
    Reaches(g, s, a) && forall b :: Reaches(g, s, b) && b.name == a.name ==> b.depth > a.depth || b == a
  }

  /** The first of the shortest ways to where it leads; earlier fields first. */
  ghost predicate First(g: Graph, s: Sym, l: seq<nat>)
    requires s in g
  {
    Way(g, s, l) && forall w: seq<nat> :: Way(g, s, w) && To(g, s, w) == To(g, s, l) ==> NotAfter(l, w)
  }

  /** `t` is embedded; the first way to it crosses no pointer, a later one does. */
  ghost predicate Hidden(g: Graph, s: Sym, t: Sym)
    requires s in g
  {
    && t in g && !g[t].shape.Interface? && !Started(g, s, t)
    && (exists l: seq<nat> :: First(g, s, l) && To(g, s, l) == t && !Crosses(g, s, l))
    && exists w: seq<nat> :: Way(g, s, w) && To(g, s, w) == t && Crosses(g, s, w)
  }

  lemma ReachWay(g: Graph, s: Sym, a: Arrival) returns (l: seq<nat>)
    requires s in g && Reaches(g, s, a)
    ensures Way(g, s, l) && To(g, s, l) == a.src && Deep(g, s, l) == a.depth
    ensures Specifies(g, a.src, a.name) || DeclaresMethod(g, a.src, a.name, |l| == 1 || Crosses(g, s, l))
  {
    hide Starts, Route, Last, Hops, CrossesPtr, Specifies, DeclaresMethod;
    var e, route :| e in Starts(g, s) && Provides(g, e, route, a);
    var i :| 0 <= i < |Starts(g, s)| && Starts(g, s)[i] == e;
    StartsTop(g, s);
    l := [i] + route;
    assert l[1..] == route;
  }

  lemma WayReaches(g: Graph, s: Sym, l: seq<nat>, a: Arrival)
    requires s in g && Way(g, s, l) && To(g, s, l) == a.src && Deep(g, s, l) == a.depth
    requires Specifies(g, a.src, a.name) || DeclaresMethod(g, a.src, a.name, |l| == 1 || Crosses(g, s, l))
    ensures Reaches(g, s, a)
  {
    hide Starts, Route, Last, Hops, CrossesPtr, Specifies, DeclaresMethod;
    StartsTop(g, s);
    assert l[0] < |Starts(g, s)| && Starts(g, s)[l[0]] in Starts(g, s);
    assert Provides(g, Starts(g, s)[l[0]], l[1..], a);
  }

  /** Whatever is no interface is read on the first way to it. */
  lemma ReadFirst(g: Graph, s: Sym, at: Timetable, t: Sym)
    requires s in g && Schedule(g, s, at) && t in at && t in g && !g[t].shape.Interface?
    ensures First(g, s, at[t]) && To(g, s, at[t]) == t
  {
    hide Schedule, Way, To, Deep, NotAfter;
    PlainOwn(g, s, at, t);
    forall w: seq<nat> | Way(g, s, w) && To(g, s, w) == t ensures NotAfter(at[t], w) { Cover(g, s, at, w); }
  }

  lemma RecordedReaches(g: Graph, s: Sym, at: Timetable, a: Arrival)
    requires s in g && Schedule(g, s, at) && Recorded(g, s, at, a)
    ensures Reaches(g, s, a)
  {
    hide Schedule, Way, To, Deep, Crosses, Reaches, Started;
    var t := a.src;
    var l := WayOf(g, s, at, t);
    if !Specifies(g, t, a.name) {
      PlainOwn(g, s, at, t);
      if Started(g, s, t) { StartedShort(g, s, at, t); }
    }
    WayReaches(g, s, l, a);
  }

  lemma StartedShort(g: Graph, s: Sym, at: Timetable, t: Sym)
    requires s in g && Schedule(g, s, at) && t in at && Started(g, s, t)
    ensures |at[t]| == 1
  {
    hide OnWays, AllTimely, AllGrounded, Started;
    var i := StartAt(g, s, at, t);
  }

  /** What a method by pointer needs that the rule provides. */
  lemma PointerSeen(g: Graph, s: Sym, at: Timetable, l: seq<nat>, name: string)
    requires s in g && Schedule(g, s, at) && Way(g, s, l) && To(g, s, l) in at && Way(g, s, at[To(g, s, l)])
    requires DeclaresMethod(g, To(g, s, l), name, |l| == 1 || Crosses(g, s, l))
    requires Hidden(g, s, To(g, s, l)) ==> forall m :: m in g[To(g, s, l)].methods ==> !m.ptrRecv
    ensures var t := To(g, s, l); DeclaresMethod(g, t, name, Started(g, s, t) || Crosses(g, s, at[t]))
  {
    hide Schedule, Way, To, Deep, Crosses, Started, First;
    var t := To(g, s, l);
    ReadFirst(g, s, at, t);
    if |l| == 1 { ShortWayStarted(g, s, l); }
  }

  /** Where nothing with a method by pointer is hidden and no element deferred, what the rule provides
      the walk records, from the same declaration and no deeper. */
  lemma ReachesRecorded(g: Graph, s: Sym, at: Timetable, a: Arrival) returns (b: Arrival)
    requires s in g && Schedule(g, s, at) && NoneDeferred(g, at) && Reaches(g, s, a)
    requires Hidden(g, s, a.src) ==> forall m :: m in g[a.src].methods ==> !m.ptrRecv
    ensures Recorded(g, s, at, b) && b.name == a.name && b.src == a.src && b.depth <= a.depth
  {
    hide Schedule, NoneDeferred, Way, To, Deep, Crosses, Reaches, Started, Hidden, Specifies, DeclaresMethod;
    var l := ReachWay(g, s, a);
    Cover(g, s, at, l);
    ReadOnWay(g, s, at, a.src);
    b := Arrival(a.name, |at[a.src]| - 1, a.src);
    if !Specifies(g, a.src, a.name) { PointerSeen(g, s, at, l, a.name); }
  }

  /** The method set is the rule's where no declaration with a method by pointer is hidden and no
      element is deferred. */
  lemma MethodSetIff(g: Graph, s: Sym, at: Timetable, a: Arrival)
    requires s in g && Regular(g, s) && Schedule(g, s, at) && NoneDeferred(g, at)
    requires forall t: Sym :: Hidden(g, s, t) ==> forall m :: m in g[t].methods ==> !m.ptrRecv
    ensures InMethodSet(g, s, a) <==> InRule(g, s, a)
  {
    hide Regular, Schedule, NoneDeferred, InMethodSet, Reaches, Recorded, Hidden;
    MetIff(g, s, at, a);
    forall b | Recorded(g, s, at, b) ensures Reaches(g, s, b) { RecordedReaches(g, s, at, b); }
    if InMethodSet(g, s, a) {
      forall b | Reaches(g, s, b) && b.name == a.name ensures b.depth > a.depth || b == a {
        HiddenValues(g, s, b.src);
        var c := ReachesRecorded(g, s, at, b);
      }
    }
    if InRule(g, s, a) {
      HiddenValues(g, s, a.src);
      var c := ReachesRecorded(g, s, at, a);
    }
  }

  lemma HiddenValues(g: Graph, s: Sym, t: Sym)
    requires s in g && forall t: Sym :: Hidden(g, s, t) ==> forall m :: m in g[t].methods ==> !m.ptrRecv
    ensures Hidden(g, s, t) ==> t in g && forall m :: m in g[t].methods ==> !m.ptrRecv
  {
    hide First, Started, Way, To, Crosses;
  }

  /** In particular where all ways to a declaration with a method by pointer agree on crossing one. */
  lemma AgreeingWays(g: Graph, s: Sym, at: Timetable, a: Arrival)
    requires s in g && Regular(g, s) && Schedule(g, s, at) && NoneDeferred(g, at)
    requires forall l: seq<nat>, w: seq<nat> :: Way(g, s, l) && Way(g, s, w) && To(g, s, l) == To(g, s, w) ==>
      Crosses(g, s, l) == Crosses(g, s, w) || forall m :: m in g[To(g, s, l)].methods ==> !m.ptrRecv
    ensures InMethodSet(g, s, a) <==> InRule(g, s, a)
  {
    hide Regular, Schedule, NoneDeferred, InMethodSet, InRule, Way, To, Crosses;
    forall t: Sym | Hidden(g, s, t) ensures forall m :: m in g[t].methods ==> !m.ptrRecv {
      var l: seq<nat> :| First(g, s, l) && To(g, s, l) == t && !Crosses(g, s, l);
      var w: seq<nat> :| Way(g, s, w) && To(g, s, w) == t && Crosses(g, s, w);
    }
    MethodSetIff(g, s, at, a);
  }

  /** And where there is one way only to every declaration that is reached. */
  lemma OneWay(g: Graph, s: Sym, a: Arrival)
    requires s in g && Regular(g, s)
    requires forall l: seq<nat>, w: seq<nat> :: Way(g, s, l) && Way(g, s, w) && To(g, s, l) == To(g, s, w) ==> l == w
    ensures InMethodSet(g, s, a) <==> InRule(g, s, a)
  {
    hide Regular, Schedule, NoneDeferred, InMethodSet, InRule, Way, To, Crosses, TableOf;
    var f := WalkSchedule(g, s);
    OneWayDefersNone(g, s, TableOf(g, s, f));
    AgreeingWays(g, s, TableOf(g, s, f), a);
  }

  lemma OneWayDefersNone(g: Graph, s: Sym, at: Timetable)
    requires s in g && Schedule(g, s, at)
    requires forall l: seq<nat>, w: seq<nat> :: Way(g, s, l) && Way(g, s, w) && To(g, s, l) == To(g, s, w) ==> l == w
    ensures NoneDeferred(g, at)
  {
    hide Schedule, Way, To, Deep, DeferredAt;
    forall t: Sym, k: nat ensures !DeferredAt(g, at, t, k) {
      if DeferredAt(g, at, t, k) { var l, w := DeferredWays(g, s, at, t, k); }
    }
  }

  /** To a deferred element lead a way over the interface and a deeper one. */
  lemma DeferredWays(g: Graph, s: Sym, at: Timetable, t: Sym, k: nat) returns (l: seq<nat>, w: seq<nat>)
    requires s in g && Schedule(g, s, at) && DeferredAt(g, at, t, k)
    ensures Way(g, s, l) && Way(g, s, w) && To(g, s, l) == To(g, s, w) && Deep(g, s, l) < Deep(g, s, w)
  {
    hide Schedule, Way, To, Deep, Next;
    var u := Next(g, t, k).value;
    DeferredOwn(g, s, at, t, k);
    ReadOnWay(g, s, at, u);
    var p := WayOf(g, s, at, t);
    WaySnoc(g, s, p, k);
    l, w := p + [k], at[u];
  }

  // ---- Several paths to one declaration ------------------------------------------------------------

  /** type R struct { A; P }, type A struct { T }, type P struct { *T }, func (*T) M(). */
  function Diamond(): Graph {
    map[
      0 := Decl(Struct([Field(1, false), Field(2, false)]), []),
      1 := Decl(Struct([Field(3, false)]), []),
      2 := Decl(Struct([Field(3, true)]), []),
      3 := Decl(Opaque, [Method("M", true)])]
  }

  lemma ChasePlain(g: Graph, s: Sym, visited: set<Sym>)
    requires s in g && !g[s].shape.Named?
    ensures Chase(g, s, visited, LAYERS) == if s in visited then (None, visited) else (Some(s), visited + {s})
    ensures End(g, s, LAYERS) == Some(s)
  {
  }

  lemma PushOne(g: Graph, e: Entry, i: nat, visited: set<Sym>)
    requires e.sym in g && g[e.sym].shape.Struct? && i < |g[e.sym].shape.fields|
    ensures var f := g[e.sym].shape.fields[i];
      var c := Chase(g, f.sym, visited, LAYERS);
      var r := Push(g, e, i + 1, c.1);
      Push(g, e, i, visited) == if c.0.None? then r
        else ([Entry(c.0.value, e.ptr || f.byPtr, e.depth + 1, false)] + r.0, r.1)
  {
    hide Chase;
  }

  lemma PushNone(g: Graph, e: Entry, visited: set<Sym>)
    requires e.sym in g && g[e.sym].shape.Struct?
    ensures Push(g, e, |g[e.sym].shape.fields|, visited) == ([], visited)
  {
  }

  lemma DiamondRounds()
    ensures var g := Diamond();
      && Round(g, Entry(0, false, 0, true), {}) == ([], [Entry(1, false, 1, false), Entry(2, false, 1, false)], {1, 2})
      && Round(g, Entry(1, false, 1, false), {1, 2}) == ([], [Entry(3, false, 2, false)], {1, 2, 3})
      && Round(g, Entry(2, false, 1, false), {1, 2, 3}) == ([], [], {1, 2, 3})
      && Round(g, Entry(3, false, 2, false), {1, 2, 3}) == ([], [], {1, 2, 3})
  {
    hide Chase, Push;
    var g := Diamond();
    var a, b, c := Entry(0, false, 0, true), Entry(1, false, 1, false), Entry(2, false, 1, false);
    ChasePlain(g, 1, {});
    ChasePlain(g, 2, {1});
    ChasePlain(g, 3, {1, 2});
    ChasePlain(g, 3, {1, 2, 3});
    PushOne(g, a, 0, {});
    PushOne(g, a, 1, {1});
    PushNone(g, a, {1, 2});
    PushOne(g, b, 0, {1, 2});
    PushNone(g, b, {1, 2, 3});
    PushOne(g, c, 0, {1, 2, 3});
    PushNone(g, c, {1, 2, 3});
    assert {} + {1} == {1} && {1} + {2} == {1, 2} && {1, 2} + {3} == {1, 2, 3};
    var d := Entry(3, false, 2, false);
    assert [b] + ([c] + []) == [b, c] && [d] + [] == [d];
    assert g[3].methods[1..] == [] && Methods(g[3].methods, d) == [] + Methods([], d) == [];
  }

  lemma WalkRound(g: Graph, queue: seq<Entry>, visited: set<Sym>, r: (seq<Arrival>, seq<Entry>, set<Sym>))
    requires (forall e :: e in queue ==> e.sym in g) && queue != [] && r == Round(g, queue[0], visited) && r.0 == []
    ensures Walk(g, queue, visited) == Walk(g, queue[1..] + r.1, r.2)
  {
    hide Round;
    assert [] + Walk(g, queue[1..] + r.1, r.2) == Walk(g, queue[1..] + r.1, r.2);
  }

  /** Where a declaration is reached along several paths the first arrival's pointer flag wins:
      the rule provides M through P, the walk has seen T through A. */
  lemma FirstArrivalHides()
    ensures var g := Diamond();
      Reaches(g, 0, Arrival("M", 2, 3)) && Arrivals(g, 0) == []
  {
    hide Round, Walk, Next, Route, Last, Hops, CrossesPtr;
    var g := Diamond();
    var a, b, c, d := Entry(0, false, 0, true), Entry(1, false, 1, false), Entry(2, false, 1, false),
      Entry(3, false, 2, false);
    DiamondRounds();
    WalkRound(g, [a], {}, ([], [b, c], {1, 2}));
    assert [a][1..] + [b, c] == [b, c];
    WalkRound(g, [b, c], {1, 2}, ([], [d], {1, 2, 3}));
    assert [b, c][1..] + [d] == [c, d];
    WalkRound(g, [c, d], {1, 2, 3}, ([], [], {1, 2, 3}));
    assert [c, d][1..] + [] == [d];
    WalkRound(g, [d], {1, 2, 3}, ([], [], {1, 2, 3}));
    assert [d][1..] + [] == [];
    assert Walk(g, [], {1, 2, 3}) == [] by { NothingQueued(g, {1, 2, 3}); }
    DiamondRoute();
  }

  lemma NothingQueued(g: Graph, visited: set<Sym>)
    ensures Walk(g, [], visited) == []
  {
  }

  lemma DiamondRoute()
    ensures Reaches(Diamond(), 0, Arrival("M", 2, 3))
  {
    hide End;
    var g := Diamond();
    ChasePlain(g, 2, {});
    ChasePlain(g, 3, {});
    assert Next(g, 0, 1) == Some(2) && Next(g, 2, 0) == Some(3);
    assert Route(g, 3, []);
    RouteCons(g, 2, 0, []);
    RouteCons(g, 0, 1, [0] + []);
    var route := [1] + ([0] + []);
    assert Method("M", true) in g[3].methods;
    assert Provides(g, Entry(0, false, 0, true), route, Arrival("M", 2, 3));
    assert Entry(0, false, 0, true) in Starts(g, 0);
  }
}
