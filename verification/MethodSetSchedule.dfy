/** When every declaration is read: the one timetable of the walk, stated on the ways. */
module MethodSetSchedule {
  import opened Basics
  import opened MethodSet
  import opened MethodSetLaw
  import opened MethodSetCover
  import opened MethodSetQueue

  /** For a declaration, the way of the entry in whose round it is read: its own way over struct
      fields, or for a flattened interface that of the interface it is flattened under. */
  type Timetable = map<Sym, seq<nat>>

  ghost predicate Started(g: Graph, s: Sym, t: Sym)
    requires s in g
  {
    exists e :: e in Starts(g, s) && e.sym == t
  }

  /** The declaration is read in a round of its own. */
  ghost predicate OwnRound(g: Graph, s: Sym, at: Timetable, u: Sym)
    requires s in g
  {
    u in at && at[u] != [] && Way(g, s, at[u]) && To(g, s, at[u]) == u
  }

  /** What place `k` of `t` leads to was met when that place was read, or before: pushed on a way not
      after the field's or in an earlier round, flattened in an earlier round or in this one. */
  ghost predicate Timely(g: Graph, s: Sym, at: Timetable, t: Sym, k: nat)
    requires s in g && t in g && t in at && Next(g, t, k).Some? && Next(g, t, k).value in at
  {
    var u := Next(g, t, k).value;
    if OwnRound(g, s, at, u) then
      if g[t].shape.Struct? then NotAfter(at[u], at[t] + [k]) else Before(Above(at[u]), at[t])
    else if g[t].shape.Struct? then Before(at[u], at[t]) else NotAfter(at[u], at[t])
  }

  function ReadIn(at: Timetable, l: seq<nat>): set<Sym> {
    set v | v in at && at[v] == l
  }

  /** A field of a struct that is read at the end of the way but its last place. */
  ghost predicate FieldOf(g: Graph, s: Sym, at: Timetable, u: Sym)
    requires s in g && u in at
  {
    && |at[u]| > 1 && Way(g, s, Above(at[u])) && OwnRound(g, s, at, u)
    && var t := To(g, s, Above(at[u]));
    t in at && at[t] == Above(at[u]) && g[t].shape.Struct? && Next(g, t, at[u][|at[u]| - 1]) == Some(u)
  }

  /** The interface at the end of the way leads to `u` along elements read in its round. */
  ghost predicate FlatUnder(g: Graph, s: Sym, at: Timetable, u: Sym, route: seq<nat>)
    requires s in g && u in at
  {
    && Way(g, s, at[u]) && route != []
    && var i := To(g, s, at[u]);
    && g[i].shape.Interface? && i != u && i in at && at[i] == at[u]
    && Route(g, i, route) && Last(g, i, route) == u && Through(g, i, route, ReadIn(at, at[u]))
  }

  ghost predicate Grounded(g: Graph, s: Sym, at: Timetable, u: Sym)
    requires s in g && u in at
  {
    FieldOf(g, s, at, u) || exists route: seq<nat> :: FlatUnder(g, s, at, u, route)
  }

  ghost predicate OnWays(g: Graph, s: Sym, at: Timetable)
    requires s in g
  {
    forall t: Sym :: t in at ==> t in g && at[t] != [] && Way(g, s, at[t]) && Deep(g, s, at[t]) == |at[t]| - 1
  }

  ghost predicate StartsFirst(g: Graph, s: Sym, at: Timetable)
    requires s in g
  {
    forall i: nat :: i < |Starts(g, s)| ==> Starts(g, s)[i].sym in at && at[Starts(g, s)[i].sym] == [i]
  }

  ghost predicate AllTimely(g: Graph, s: Sym, at: Timetable)
    requires s in g
  {
    forall t: Sym, k: nat :: t in at && t in g && Next(g, t, k).Some? ==>
      Next(g, t, k).value in at && Timely(g, s, at, t, k)
  }

  ghost predicate AllGrounded(g: Graph, s: Sym, at: Timetable)
    requires s in g
  {
    forall u: Sym :: u in at && !Started(g, s, u) ==> Grounded(g, s, at, u)
  }

  /** Where the rule starts is read first; whatever is read leads on to what is read in time; and
      nothing is read without having been met. */
  ghost predicate Schedule(g: Graph, s: Sym, at: Timetable)
    requires s in g
  {
    OnWays(g, s, at) && StartsFirst(g, s, at) && AllTimely(g, s, at) && AllGrounded(g, s, at)
  }

  // ---- The starts ----------------------------------------------------------------------------------

  lemma StartsApart(g: Graph, s: Sym)
    requires s in g
    ensures |Starts(g, s)| <= 2 && Starts(g, s)[0].sym == s
    ensures |Starts(g, s)| == 2 ==> g[s].shape.Named? && !g[Starts(g, s)[1].sym].shape.Named?
  {
    hide End;
    if g[s].shape.Named? && g[s].shape.alias && End(g, g[s].shape.next, LAYERS).Some? {
      EndIsPlain(g, g[s].shape.next, LAYERS);
    }
  }

  lemma StartAt(g: Graph, s: Sym, at: Timetable, t: Sym) returns (i: nat)
    requires s in g && StartsFirst(g, s, at) && Started(g, s, t)
    ensures i < |Starts(g, s)| && Starts(g, s)[i].sym == t && t in at && at[t] == [i]
    ensures Way(g, s, at[t]) && To(g, s, at[t]) == t
  {
    hide Starts;
    var e :| e in Starts(g, s) && e.sym == t;
    i :| 0 <= i < |Starts(g, s)| && Starts(g, s)[i] == e;
    assert [i][1..] == [];
  }

  // ---- The ways a timetable gives --------------------------------------------------------------------

  lemma WayThen(g: Graph, s: Sym, l: seq<nat>, route: seq<nat>)
    requires s in g && l != [] && Way(g, s, l) && Route(g, To(g, s, l), route)
    ensures Way(g, s, l + route) && To(g, s, l + route) == Last(g, To(g, s, l), route)
    ensures Deep(g, s, l + route) == Deep(g, s, l) + Hops(g, To(g, s, l), route)
  {
    hide Starts, Route, Last, Hops;
    assert (l + route)[0] == l[0] && (l + route)[1..] == l[1..] + route;
    RouteThen(g, Starts(g, s)[l[0]].sym, l[1..], route);
  }

  /** Only interfaces are flattened. */
  lemma PlainOwn(g: Graph, s: Sym, at: Timetable, u: Sym)
    requires s in g && Schedule(g, s, at) && u in at && !g[u].shape.Interface?
    ensures OwnRound(g, s, at, u)
  {
    hide Route, Last, Through, Way, To, Deep, Timely, Started;
    if Started(g, s, u) {
      var i := StartAt(g, s, at, u);
    } else {
      assert Grounded(g, s, at, u);
      if route: seq<nat> :| FlatUnder(g, s, at, u, route) { InterfaceRoute(g, To(g, s, at[u]), route); }
    }
  }

  /** A declaration is read as deep as some way to it. */
  lemma WayOf(g: Graph, s: Sym, at: Timetable, u: Sym) returns (l: seq<nat>)
    requires s in g && Schedule(g, s, at) && u in at
    ensures l != [] && Way(g, s, l) && To(g, s, l) == u && Deep(g, s, l) == |at[u]| - 1
    ensures OwnRound(g, s, at, u) ==> l == at[u]
  {
    hide Route, Last, Through, Way, To, Deep, Timely, Started, Hops;
    l := at[u];
    if !OwnRound(g, s, at, u) {
      if Started(g, s, u) { var i := StartAt(g, s, at, u); }
      assert Grounded(g, s, at, u);
      var route: seq<nat> :| FlatUnder(g, s, at, u, route);
      InterfaceRoute(g, To(g, s, at[u]), route);
      WayThen(g, s, at[u], route);
      l := at[u] + route;
    }
  }

  /** An element is deferred: it is read deeper than the interface that lists it, since a struct read
      earlier at the interface's depth had pushed it. */
  ghost predicate DeferredAt(g: Graph, at: Timetable, t: Sym, k: nat) {
    && t in g && t in at && g[t].shape.Interface? && Next(g, t, k).Some? && Next(g, t, k).value in at
    && |at[Next(g, t, k).value]| > |at[t]|
  }

  ghost predicate NoneDeferred(g: Graph, at: Timetable) {
    forall t: Sym, k: nat :: !DeferredAt(g, at, t, k)
  }

  /** What a deferred element is: the field of a struct of the interface's depth, earlier in the
      order of the ways. */
  lemma DeferredIs(g: Graph, s: Sym, at: Timetable, t: Sym, k: nat) returns (p: Sym)
    requires s in g && Schedule(g, s, at) && DeferredAt(g, at, t, k)
    ensures var u := Next(g, t, k).value;
      && p in g && g[p].shape.Struct? && OwnRound(g, s, at, p) && |at[p]| == |at[t]| && Before(at[p], at[t])
      && |at[u]| == |at[t]| + 1 && at[p] == Above(at[u]) && Next(g, p, at[u][|at[u]| - 1]) == Some(u)
  {
    hide Route, Last, Through, Way, To, Deep, Started, Lex, Next;
    var u := Next(g, t, k).value;
    assert Timely(g, s, at, t, k);
    if Started(g, s, u) { var i := StartAt(g, s, at, u); }
    assert Grounded(g, s, at, u);
    p := To(g, s, Above(at[u]));
  }

  // ---- What a timetable covers ---------------------------------------------------------------------

  ghost predicate Covered(g: Graph, s: Sym, at: Timetable, l: seq<nat>)
    requires s in g && Way(g, s, l)
  {
    var t := To(g, s, l);
    && t in at && at[t] != []
    && (!g[t].shape.Interface? ==> NotAfter(at[t], l))
    && (NoneDeferred(g, at) ==> |at[t]| - 1 <= Deep(g, s, l))
  }

  /** Every way leads to what is read: a struct on no later way, and where no element is deferred
      nothing deeper. */
  lemma {:induction false} Cover(g: Graph, s: Sym, at: Timetable, l: seq<nat>)
    requires s in g && Schedule(g, s, at) && Way(g, s, l)
    ensures Covered(g, s, at, l)
    decreases |l|
  {
    hide Schedule, Starts, Next, Way, To, Deep, Covered;
    LongWay(g, s, l);
    if |l| == 1 {
      CoverStart(g, s, at, l);
    } else {
      var p, k := l[..|l| - 1], l[|l| - 1];
      assert l == p + [k] && p != [];
      WaySnoc(g, s, p, k);
      Cover(g, s, at, p);
      CoverStep(g, s, at, p, k);
    }
  }

  lemma LongWay(g: Graph, s: Sym, l: seq<nat>)
    requires s in g && Way(g, s, l)
    ensures l != []
  {
  }

  lemma CoverStart(g: Graph, s: Sym, at: Timetable, l: seq<nat>)
    requires s in g && Schedule(g, s, at) && Way(g, s, l) && |l| == 1
    ensures Covered(g, s, at, l)
  {
    hide Starts, AllTimely, AllGrounded, NoneDeferred;
    assert l[1..] == [] && l == [l[0]];
  }

  lemma CoverStep(g: Graph, s: Sym, at: Timetable, p: seq<nat>, k: nat)
    requires s in g && Schedule(g, s, at) && Way(g, s, p) && Covered(g, s, at, p) && p != [] && Way(g, s, p + [k])
    ensures Covered(g, s, at, p + [k])
  {
    hide Starts, Next, Way, To, Deep, Before, OnWays, StartsFirst, AllGrounded;
    WaySnoc(g, s, p, k);
    var t, u := To(g, s, p), To(g, s, p + [k]);
    NextRefers(g, t, k);
    assert Timely(g, s, at, t, k);
    assert at[u] != [] by { ReadOnWay(g, s, at, u); }
    if g[t].shape.Interface? {
      NextInside(g, t, k);
      assert NoneDeferred(g, at) ==> !DeferredAt(g, at, t, k);
    } else {
      RouteGoesOn(g, t, k);
      if !g[u].shape.Interface? { PlainOwn(g, s, at, u); }
      StructCovers(g, s, at, p, k);
    }
  }

  lemma ReadOnWay(g: Graph, s: Sym, at: Timetable, u: Sym)
    requires s in g && Schedule(g, s, at) && u in at
    ensures u in g && at[u] != [] && Way(g, s, at[u]) && Deep(g, s, at[u]) == |at[u]| - 1
  {
    hide Way, Deep, AllTimely, AllGrounded, StartsFirst;
  }

  lemma NextInside(g: Graph, t: Sym, k: nat)
    requires t in g && g[t].shape.Interface? && Next(g, t, k).Some?
    ensures g[Next(g, t, k).value].shape.Interface?
  {
  }

  lemma RouteGoesOn(g: Graph, t: Sym, k: nat)
    requires t in g && Next(g, t, k).Some? && !g[t].shape.Interface?
    ensures g[t].shape.Struct?
  {
  }

  /** A field is read no later than on the way it lengthens. */
  lemma StructCovers(g: Graph, s: Sym, at: Timetable, p: seq<nat>, k: nat)
    requires s in g && Way(g, s, p) && p != [] && Way(g, s, p + [k])
    requires To(g, s, p) in at && To(g, s, p + [k]) in at && g[To(g, s, p)].shape.Struct?
    requires at[To(g, s, p)] != [] && NotAfter(at[To(g, s, p)], p) && Next(g, To(g, s, p), k) == Some(To(g, s, p + [k]))
    requires Timely(g, s, at, To(g, s, p), k)
    ensures var u := To(g, s, p + [k]);
      && |at[u]| <= |at[To(g, s, p)]| + 1 && (OwnRound(g, s, at, u) ==> NotAfter(at[u], p + [k]))
      && |at[u]| <= |p| + 1
  {
    hide Next, Way, To, Before;
    var t, u := To(g, s, p), To(g, s, p + [k]);
    BeforeSnoc(at[t], p, k, k);
    NotAfterLong(at[t], p);
    if OwnRound(g, s, at, u) {
      NotAfterLong(at[u], at[t] + [k]);
      BeforeTrans(at[u], at[t] + [k], p + [k]);
    } else {
      NotAfterLong(at[u], at[t]);
    }
  }

  lemma NotAfterLong(a: seq<nat>, b: seq<nat>)
    requires NotAfter(a, b)
    ensures |a| <= |b|
  {
  }

  /** Way over struct fields only. */
  ghost predicate FieldsOnly(g: Graph, s: Sym, l: seq<nat>)
    requires s in g
  {
    l != [] && Way(g, s, l) && Deep(g, s, l) == |l| - 1
  }

  /** A declaration reached over struct fields is read no deeper than on any such way. */
  lemma FieldsCover(g: Graph, s: Sym, at: Timetable, l: seq<nat>)
    requires s in g && Schedule(g, s, at) && FieldsOnly(g, s, l)
    ensures To(g, s, l) in at && |at[To(g, s, l)]| <= |l|
  {
    hide Starts, Next, Way, To, Deep, Before, OnWays, StartsFirst, AllGrounded;
    Cover(g, s, at, l);
    if |l| == 1 {
      assert |at[To(g, s, l)]| <= 1 by { StartCovers(g, s, at, l); }
    } else {
      var p, k := l[..|l| - 1], l[|l| - 1];
      assert l == p + [k] && p != [];
      WaySnoc(g, s, p, k);
      assert Deep(g, s, p) <= |p| - 1 by { DeepAtMost(g, s, p); }
      Cover(g, s, at, p);
      assert Timely(g, s, at, To(g, s, p), k);
      StructCovers(g, s, at, p, k);
    }
  }

  lemma DeepAtMost(g: Graph, s: Sym, l: seq<nat>)
    requires s in g && Way(g, s, l)
    ensures Deep(g, s, l) <= |l| - 1
  {
    HopsAtMost(g, Starts(g, s)[l[0]].sym, l[1..]);
  }

  lemma StartCovers(g: Graph, s: Sym, at: Timetable, l: seq<nat>)
    requires s in g && Schedule(g, s, at) && Way(g, s, l) && |l| == 1
    ensures To(g, s, l) in at && |at[To(g, s, l)]| == 1
  {
    hide Starts, AllTimely, AllGrounded;
    assert l[1..] == [] && l == [l[0]];
  }

  /** An interface that structs embed is embedded by one no deeper than any interface that lists it
      lies: then no element is deferred. */
  ghost predicate FieldsNoLater(g: Graph, s: Sym)
    requires s in g
  {
    forall l: seq<nat>, k: nat, f: seq<nat> ::
      Way(g, s, l) && g[To(g, s, l)].shape.Interface? && Next(g, To(g, s, l), k).Some?
      && FieldsOnly(g, s, f) && To(g, s, f) == Next(g, To(g, s, l), k).value
      ==> exists f': seq<nat> :: FieldsOnly(g, s, f') && To(g, s, f') == To(g, s, f) && |f'| - 1 <= Deep(g, s, l)
  }

  lemma NoLaterNoneDeferred(g: Graph, s: Sym, at: Timetable)
    requires s in g && Schedule(g, s, at) && FieldsNoLater(g, s)
    ensures NoneDeferred(g, at)
  {
    hide Schedule, Way, To, Deep, Next;
    forall t: Sym, k: nat ensures !DeferredAt(g, at, t, k) {
      if DeferredAt(g, at, t, k) {
        var u := Next(g, t, k).value;
        var p := DeferredIs(g, s, at, t, k);
        ReadOnWay(g, s, at, u);
        DeferredOwn(g, s, at, t, k);
        var l := WayOf(g, s, at, t);
        assert FieldsOnly(g, s, at[u]);
        var f': seq<nat> :| FieldsOnly(g, s, f') && To(g, s, f') == u && |f'| - 1 <= Deep(g, s, l);
        FieldsCover(g, s, at, f');
      }
    }
  }

  lemma DeferredOwn(g: Graph, s: Sym, at: Timetable, t: Sym, k: nat)
    requires s in g && Schedule(g, s, at) && DeferredAt(g, at, t, k)
    ensures OwnRound(g, s, at, Next(g, t, k).value)
  {
    hide Way, To, Deep, Next, Lex;
    assert Timely(g, s, at, t, k);
  }

  // ---- There is one timetable ------------------------------------------------------------------------

  /** When a declaration is met: the round that meets it, and its way. */
  ghost function Event(g: Graph, s: Sym, at: Timetable, u: Sym): (seq<nat>, seq<nat>)
    requires s in g && u in at
  {
    if OwnRound(g, s, at, u) then (Above(at[u]), at[u]) else (at[u], at[u])
  }

  predicate Sooner(e: (seq<nat>, seq<nat>), f: (seq<nat>, seq<nat>)) {
    Before(e.0, f.0) || (e.0 == f.0 && Before(e.1, f.1))
  }

  lemma SoonerTrans(e: (seq<nat>, seq<nat>), f: (seq<nat>, seq<nat>), h: (seq<nat>, seq<nat>))
    requires Sooner(e, f) && Sooner(f, h)
    ensures Sooner(e, h)
  {
    hide Before;
    BeforeTrans(e.0, f.0, h.0);
    if !Before(e.0, f.0) && !Before(f.0, h.0) { BeforeTrans(e.1, f.1, h.1); }
  }

  lemma NotSoonerSelf(e: (seq<nat>, seq<nat>))
    ensures !Sooner(e, e)
  {
    LexNotSelf(e.0);
    LexNotSelf(e.1);
  }

  lemma {:induction false} Soonest(es: set<(seq<nat>, seq<nat>)>) returns (e: (seq<nat>, seq<nat>))
    requires es != {}
    ensures e in es && forall f :: f in es ==> !Sooner(f, e)
    decreases |es|
  {
    hide Sooner;
    e :| e in es;
    NotSoonerSelf(e);
    if es - {e} != {} {
      var m := Soonest(es - {e});
      if Sooner(e, m) {
        forall f | f in es ensures !Sooner(f, e) {
          if f != e && Sooner(f, e) { SoonerTrans(f, e, m); }
        }
      } else {
        e := m;
      }
    }
  }

  lemma LexInit(a: seq<nat>, b: seq<nat>)
    requires |a| == |b| && a != [] && Lex(a, b)
    ensures Above(a) == Above(b) || Lex(Above(a), Above(b))
    decreases |a|
  {
    if a[0] == b[0] {
      LexInit(a[1..], b[1..]);
      if |a| > 1 {
        assert Above(a) == [a[0]] + Above(a[1..]) && Above(b) == [b[0]] + Above(b[1..]);
        assert Above(a)[1..] == Above(a[1..]) && Above(b)[1..] == Above(b[1..]);
      }
    }
  }

  /** Of two ways over fields the earlier one's declaration is met sooner. */
  lemma EarlierSooner(a: seq<nat>, b: seq<nat>)
    requires a != [] && b != [] && Before(a, b)
    ensures Sooner((Above(a), a), (Above(b), b))
  {
    if |a| == |b| { LexInit(a, b); }
  }

  /** Where the two timetables differ. */
  function Differ(at: Timetable, bt: Timetable): set<Sym> {
    set u | u in at.Keys + bt.Keys && !(u in at && u in bt && at[u] == bt[u])
  }

  /** Nothing they differ in is met sooner than at that moment, in either. */
  ghost predicate AgreeBefore(g: Graph, s: Sym, at: Timetable, bt: Timetable, e: (seq<nat>, seq<nat>))
    requires s in g
  {
    && (forall v: Sym :: v in Differ(at, bt) && v in at ==> !Sooner(Event(g, s, at, v), e))
    && (forall v: Sym :: v in Differ(at, bt) && v in bt ==> !Sooner(Event(g, s, bt, v), e))
  }

  lemma OwnEvent(g: Graph, s: Sym, at: Timetable, u: Sym, l: seq<nat>)
    requires s in g && OwnRound(g, s, at, u) && at[u] == l
    ensures Before(Event(g, s, at, u).0, l)
  {
    hide Way, To, Lex;
  }

  lemma NotSooner(g: Graph, s: Sym, at: Timetable, bt: Timetable, v: Sym, e: (seq<nat>, seq<nat>))
    requires s in g && v in bt && AgreeBefore(g, s, at, bt, e)
    ensures Sooner(Event(g, s, bt, v), e) ==> v !in Differ(at, bt)
  {
    hide Sooner, Event;
  }

  /** What one timetable pushes at some moment, another that agrees before then does. */
  lemma FieldAgrees(g: Graph, s: Sym, at: Timetable, bt: Timetable, u: Sym)
    requires s in g && Schedule(g, s, at) && Schedule(g, s, bt) && u in at && FieldOf(g, s, at, u)
    requires AgreeBefore(g, s, at, bt, Event(g, s, at, u)) && !Started(g, s, u)
    ensures u in bt && bt[u] == at[u]
  {
    hide Way, To, Deep, Next, Before, Started, Schedule, AgreeBefore;
    var p, k := To(g, s, Above(at[u])), at[u][|at[u]| - 1];
    var l := at[u];
    assert l == Above(l) + [k];
    assert p in at && OwnRound(g, s, at, p) by { ReadOnWay(g, s, at, p); }
    OwnEvent(g, s, at, p, Above(l));
    assert p !in Differ(at, bt) by { SoonerAgrees(g, s, at, bt, p, Event(g, s, at, u)); }
    assert u in bt && Timely(g, s, bt, p, k) by { TimelyAt(g, s, bt, p, k); }
    ReadOnWay(g, s, bt, u);
    if OwnRound(g, s, bt, u) && bt[u] != l { EarlierSooner(bt[u], l); }
    NotSooner(g, s, at, bt, u, Event(g, s, at, u));
  }

  lemma TimelyAt(g: Graph, s: Sym, at: Timetable, t: Sym, k: nat)
    requires s in g && Schedule(g, s, at) && t in at && t in g && Next(g, t, k).Some?
    ensures Next(g, t, k).value in at && Timely(g, s, at, t, k)
  {
    hide OnWays, StartsFirst, AllGrounded, Timely;
  }

  /** And what one flattens in a round. */
  lemma {:induction false} FlatAgrees(g: Graph, s: Sym, at: Timetable, bt: Timetable, t: Sym, route: seq<nat>,
      l: seq<nat>)
    requires s in g && Schedule(g, s, at) && Schedule(g, s, bt) && l != []
    requires t in g && g[t].shape.Interface? && t in bt && bt[t] == l && Route(g, t, route)
    requires Through(g, t, route, ReadIn(at, l)) && AgreeBefore(g, s, at, bt, (l, l))
    ensures Last(g, t, route) in bt && bt[Last(g, t, route)] == l
    decreases |route|
  {
    hide Way, To, Deep, Next, Before, Started, Schedule, AgreeBefore;
    if route != [] {
      var k := route[0];
      var v := Next(g, t, k).value;
      assert v in at && at[v] == l;
      TimelyAt(g, s, bt, t, k);
      NextInside(g, t, k);
      NotSooner(g, s, at, bt, v, (l, l));
      FlatAgrees(g, s, at, bt, v, route[1..], l);
    }
  }

  /** Whatever is met first of all they differ in, they agree on. */
  lemma FirstAgrees(g: Graph, s: Sym, at: Timetable, bt: Timetable, u: Sym)
    requires s in g && Schedule(g, s, at) && Schedule(g, s, bt) && u in at
    requires AgreeBefore(g, s, at, bt, Event(g, s, at, u))
    ensures u !in Differ(at, bt)
  {
    hide Way, To, Deep, Next, Before, Started, Timely, Route, Last, Through, FieldOf, AgreeBefore, Sooner;
    if Started(g, s, u) {
      StartsAgree(g, s, at, bt, u);
    } else {
      assert Grounded(g, s, at, u);
      if FieldOf(g, s, at, u) {
        FieldAgrees(g, s, at, bt, u);
      } else {
        var route: seq<nat> :| FlatUnder(g, s, at, u, route);
        var i, l := To(g, s, at[u]), at[u];
        assert OwnRound(g, s, at, i) && !OwnRound(g, s, at, u);
        OwnEvent(g, s, at, i, l);
        assert i !in Differ(at, bt) by { SoonerAgrees(g, s, at, bt, i, (l, l)); }
        FlatAgrees(g, s, at, bt, i, route, l);
      }
    }
  }

  lemma SoonerAgrees(g: Graph, s: Sym, at: Timetable, bt: Timetable, v: Sym, e: (seq<nat>, seq<nat>))
    requires s in g && v in at && AgreeBefore(g, s, at, bt, e) && Before(Event(g, s, at, v).0, e.0)
    ensures v !in Differ(at, bt)
  {
    hide Before, Event;
  }

  lemma StartsAgree(g: Graph, s: Sym, at: Timetable, bt: Timetable, u: Sym)
    requires s in g && StartsFirst(g, s, at) && StartsFirst(g, s, bt) && Started(g, s, u)
    ensures u !in Differ(at, bt)
  {
    hide Starts;
    var i := StartAt(g, s, at, u);
  }

  lemma DifferSame(at: Timetable, bt: Timetable)
    ensures Differ(at, bt) == Differ(bt, at) && (Differ(at, bt) == {} ==> at == bt)
  {
    if Differ(at, bt) == {} {
      forall u: Sym ensures u in at <==> u in bt {
        if u in at || u in bt { assert u !in Differ(at, bt); }
      }
      forall u: Sym | u in at && u in bt ensures at[u] == bt[u] { assert u !in Differ(at, bt); }
    }
  }

  /** The equations have one solution. */
  lemma OneSchedule(g: Graph, s: Sym, at: Timetable, bt: Timetable)
    requires s in g && Schedule(g, s, at) && Schedule(g, s, bt)
    ensures at == bt
  {
    hide Schedule, Event, Sooner;
    DifferSame(at, bt);
    var d := Differ(at, bt);
    if d != {} {
      var es := (set u | u in d && u in at :: Event(g, s, at, u)) + (set u | u in d && u in bt :: Event(g, s, bt, u));
      var v :| v in d;
      assert v in at ==> Event(g, s, at, v) in es;
      assert v in bt ==> Event(g, s, bt, v) in es;
      var e := Soonest(es);
      assert AgreeBefore(g, s, at, bt, e) && AgreeBefore(g, s, bt, at, e);
      if u :| u in d && u in at && Event(g, s, at, u) == e {
        FirstAgrees(g, s, at, bt, u);
      } else {
        var u :| u in d && u in bt && Event(g, s, bt, u) == e;
        FirstAgrees(g, s, bt, at, u);
      }
    }
  }
}
