/** When the method set is the one Go's rule gives. */
module MethodSetMeets {
  import opened Basics
  import opened MethodSet
  import opened MethodSetLaw
  import opened MethodSetCover
  import opened MethodSetQueue
  import opened MethodSetSchedule
  import opened MethodSetExact
  import opened Promotion

  // ---- The conditions ------------------------------------------------------------------------------

  /** `t` is defined by another's name. */
  predicate Defined(g: Graph, t: Sym) {
    t in g && g[t].shape.Named? && !g[t].shape.alias
  }

  /** The queried type stands for what it comes down to; or it is defined by another's name, and there
      is nothing below it to promote. */
  ghost predicate StartClear(g: Graph, s: Sym)
    requires s in g
  {
    if Defined(g, s) then !OverInterface(g, s) && forall k: nat, v: Sym, ptr: bool :: Step(g, s, k, v, ptr) ==> v == s
    else Transparent(g, s)
  }

  /** Nothing is lost in passing through what is embedded: it is not defined by another's name, or over
      an interface. */
  ghost predicate AllClear(g: Graph, s: Sym)
    requires s in g
  {
    && StartClear(g, s)
    && forall t: Sym, k: nat :: LiveAt(g, s, t, k) && g[t].shape.Struct? ==> Transparent(g, Target(g, t, k))
  }

  /** An alias has no methods of its own. */
  predicate AliasBare(g: Graph, s: Sym)
    requires s in g
  {
    g[s].shape.Named? && g[s].shape.alias ==> g[s].methods == []
  }

  /** Where the name comes from: the type itself, or the interface that specifies it. */
  ghost predicate Source(g: Graph, t: Sym, name: string, src: Sym) {
    if OverInterface(g, t) then Declares(g, t, name, src) else src == t
  }

  /** And from nowhere else: an interface has the name from one declaration only. */
  ghost predicate SoleSource(g: Graph, t: Sym, name: string, src: Sym) {
    Source(g, t, name, src) && forall d: Sym :: Source(g, t, name, d) ==> d == src
  }

  // ---- Fields and elements ------------------------------------------------------------------------

  /** A field of the rule on the way is a step of the walk. */
  lemma StepNext(g: Graph, s: Sym, t: Sym, k: nat, u: Sym, ptr: bool) returns (w: Sym)
    requires s in g && Short(g, s) && Terms(g, s) && AllClear(g, s) && On(g, s, t) && t in g && !g[t].shape.Named?
    requires Step(g, t, k, u, ptr)
    ensures g[t].shape.Struct? && Refers(g, t, k) && Next(g, t, k) == Some(w) && ptr == ByPtr(g, t, k)
    ensures Clear(g, u) && Ends(g, u, w)
  {
    hide On, Ends, Denotes, Next, Short, Terms, StartClear, OverInterface;
    PlainOver(g, t);
    assert FieldAt(g, t, k, u, ptr);
    var x := g[t].shape.fields[k].sym;
    assert Refers(g, t, k) && LiveAt(g, s, t, k) && Target(g, t, k) == x;
    w := ClearEnd(g, u);
    DenotesEnds(g, x, u, w);
    NextEnds(g, s, t, k);
  }

  lemma ClearEnd(g: Graph, u: Sym) returns (w: Sym)
    requires Clear(g, u)
    ensures Ends(g, u, w)
  {
    hide Ends;
    if g[u].shape.Named? {
      w :| Ends(g, u, w) && w in g && g[w].shape.Interface?;
    } else {
      w := u;
      EndsSelf(g, u);
    }
  }

  /** And the other way round. */
  lemma NextStep(g: Graph, s: Sym, t: Sym, k: nat) returns (u: Sym)
    requires s in g && Short(g, s) && Terms(g, s) && On(g, s, t) && t in g && g[t].shape.Struct? && Next(g, t, k).Some?
    ensures Refers(g, t, k) && Denotes(g, Target(g, t, k), u)
    ensures Step(g, t, k, u, ByPtr(g, t, k)) && Ends(g, u, Next(g, t, k).value)
    ensures AllClear(g, s) ==> Clear(g, u)
  {
    hide On, Ends, Denotes, Next, Short, Terms, StartClear, OverInterface, Clear;
    NextRefers(g, t, k);
    NextEnds(g, s, t, k);
    var x, w := Target(g, t, k), Next(g, t, k).value;
    assert LiveAt(g, s, t, k);
    u := Denoted(g, x, w);
    EndsSelf(g, t);
    assert FieldAt(g, t, k, u, ByPtr(g, t, k));
  }

  lemma ElementStep(g: Graph, s: Sym, t: Sym, k: nat, u: Sym)
    requires s in g && Short(g, s) && Terms(g, s) && On(g, s, t) && t in g && g[t].shape.Interface?
    ensures ElementAt(g, t, k, u) <==> Next(g, t, k) == Some(u)
  {
    hide On, Ends, Next, Short, Terms;
    if k < |g[t].shape.elems| && g[t].shape.elems[k].Embedded? {
      assert Refers(g, t, k) && LiveAt(g, s, t, k);
      NextEnds(g, s, t, k);
    } else {
      if Next(g, t, k).Some? { NextRefers(g, t, k); }
    }
  }

  lemma PlainNext(g: Graph, t: Sym, k: nat)
    requires t in g && Next(g, t, k).Some?
    ensures !g[Next(g, t, k).value].shape.Named?
  {
    hide Next;
    NextPlain(g, t);
  }

  lemma {:induction false} InsideRoute(g: Graph, s: Sym, t: Sym, route: seq<nat>, d: Sym)
    requires s in g && Short(g, s) && Terms(g, s) && On(g, s, t) && t in g && g[t].shape.Interface?
    ensures Inside(g, t, route, d) <==> Route(g, t, route) && Last(g, t, route) == d
    decreases |route|
  {
    hide On, Next, Short, Terms, ElementAt;
    if route != [] {
      var k := route[0];
      forall v: Sym ensures ElementAt(g, t, k, v) <==> Next(g, t, k) == Some(v) { ElementStep(g, s, t, k, v); }
      if Next(g, t, k).Some? {
        var v := Next(g, t, k).value;
        NextInside(g, t, k);
        OnNext(g, s, t, k);
        InsideRoute(g, s, v, route[1..], d);
      }
    }
  }

  /** Behind a type over an interface no field follows. */
  lemma ClearPath(g: Graph, v: Sym, x: Sym, route: seq<nat>, u: Sym, ptr: bool)
    requires Clear(g, v) && Ends(g, v, x) && Path(g, v, route, u, ptr)
    ensures v == x || (route == [] && u == v && !ptr && g[x].shape.Interface?)
  {
    hide Ends, Clear, Denotes, Path;
    ClearEnds(g, v, x);
    if v != x { FirstStep(g, v, x, route, u, ptr); }
  }

  lemma FirstStep(g: Graph, v: Sym, x: Sym, route: seq<nat>, u: Sym, ptr: bool)
    requires Path(g, v, route, u, ptr) && Ends(g, v, x) && x in g && !g[x].shape.Struct?
    ensures route == [] && u == v && !ptr
  {
    hide Ends, Denotes;
    if route != [] {
      var w: Sym, p: bool, q: bool :| Step(g, v, route[0], w, p) && Path(g, w, route[1..], u, q) && ptr == (p || q);
      var y: Sym :| Ends(g, v, y) && FieldAt(g, y, route[0], w, p);
      EndsOne(g, v, x, y);
    }
  }

  /** Down the fields: the rule's way is the walk's. */
  lemma {:induction false} PathRoute(g: Graph, s: Sym, t: Sym, route: seq<nat>, u: Sym, ptr: bool) returns (w: Sym)
    requires s in g && Short(g, s) && Terms(g, s) && AllClear(g, s) && On(g, s, t) && t in g && !g[t].shape.Named?
    requires Path(g, t, route, u, ptr)
    ensures Route(g, t, route) && Last(g, t, route) == w && Hops(g, t, route) == |route|
    ensures CrossesPtr(g, t, route) == ptr
    ensures Clear(g, u) && Ends(g, u, w) && On(g, s, w) && w in g
    decreases |route|
  {
    hide On, Next, Short, Terms, AllClear, Step, ByPtr, Ends, OverInterface;
    if route == [] {
      w := t;
      EndsSelf(g, t);
    } else {
      var k := route[0];
      var v: Sym, p: bool, q: bool :| Step(g, t, k, v, p) && Path(g, v, route[1..], u, q) && ptr == (p || q);
      var x := StepNext(g, s, t, k, v, p);
      OnNext(g, s, t, k);
      PlainNext(g, t, k);
      ClearPath(g, v, x, route[1..], u, q);
      if v == x { w := PathRoute(g, s, x, route[1..], u, q); } else { w := x; }
      RouteCons(g, t, k, route[1..]);
      assert [k] + route[1..] == route;
    }
  }

  /** A way of the walk: down the fields to a type, then down the elements of what it comes down to. */
  lemma {:induction false} RoutePath(g: Graph, s: Sym, t: Sym, route: seq<nat>)
    returns (fields: seq<nat>, u: Sym, w: Sym, elems: seq<nat>, ptr: bool)
    requires s in g && Short(g, s) && Terms(g, s) && AllClear(g, s) && On(g, s, t) && t in g && !g[t].shape.Named?
    requires Route(g, t, route)
    ensures Path(g, t, fields, u, ptr) && |fields| == Hops(g, t, route) && ptr == CrossesPtr(g, t, route)
    ensures Clear(g, u) && Ends(g, u, w) && On(g, s, w) && w in g
    ensures fields == [] ==> u == t
    ensures if g[w].shape.Interface? then Inside(g, w, elems, Last(g, t, route))
      else elems == [] && Last(g, t, route) == w
    ensures route == [] <==> fields == [] && elems == []
    decreases |route|
  {
    hide On, Next, Short, Terms, AllClear, Step, ByPtr, Inside, Ends, OverInterface;
    EndsSelf(g, t);
    if g[t].shape.Interface? {
      fields, u, w, elems, ptr := [], t, t, route, false;
      InsideRoute(g, s, t, route, Last(g, t, route));
      InterfaceRoute(g, t, route);
      NoPtrInside(g, t, route);
    } else if route == [] {
      fields, u, w, elems, ptr := [], t, t, [], false;
    } else {
      var k := route[0];
      var x, p := Next(g, t, k).value, RoutePtr(g, t, k);
      RouteGoesStruct(g, t, k);
      var v := NextStep(g, s, t, k);
      OnNext(g, s, t, k);
      PlainNext(g, t, k);
      ClearEnds(g, v, x);
      if g[x].shape.Interface? {
        fields, u, w, elems, ptr := [k], v, x, route[1..], p;
        InsideRoute(g, s, x, route[1..], Last(g, x, route[1..]));
        InterfaceRoute(g, x, route[1..]);
        NoPtrInside(g, x, route[1..]);
        assert Path(g, v, [k][1..], v, false);
      } else {
        var fs, q;
        fs, u, w, elems, q := RoutePath(g, s, x, route[1..]);
        fields, ptr := [k] + fs, p || q;
        assert fields[1..] == fs;
      }
      PathCons(g, t, fields, v, p, u, ptr);
    }
  }

  lemma PathCons(g: Graph, t: Sym, fields: seq<nat>, v: Sym, p: bool, u: Sym, ptr: bool)
    requires fields != [] && Step(g, t, fields[0], v, p)
    requires exists q :: Path(g, v, fields[1..], u, q) && ptr == (p || q)
    ensures Path(g, t, fields, u, ptr)
  {
    hide Step;
  }

  function RoutePtr(g: Graph, t: Sym, k: nat): bool {
    Refers(g, t, k) && ByPtr(g, t, k)
  }

  lemma RouteGoesStruct(g: Graph, t: Sym, k: nat)
    requires t in g && Next(g, t, k).Some? && !g[t].shape.Interface?
    ensures g[t].shape.Struct? && Refers(g, t, k) && RoutePtr(g, t, k) == ByPtr(g, t, k)
  {
  }

  lemma {:induction false} NoPtrInside(g: Graph, t: Sym, route: seq<nat>)
    requires t in g && g[t].shape.Interface? && Route(g, t, route)
    ensures !CrossesPtr(g, t, route)
    decreases |route|
  {
    hide Next;
    if route != [] {
      NextInside(g, t, route[0]);
      NoPtrInside(g, Next(g, t, route[0]).value, route[1..]);
    }
  }

  // ---- The starting types ---------------------------------------------------------------------------

  lemma EndIsEnds(g: Graph, x: Sym, u: Sym)
    requires End(g, x, LAYERS) == Some(u)
    ensures Ends(g, x, u)
  {
    hide End;
  }

  /** What is no alias stands for itself. */
  lemma Stands(g: Graph, x: Sym)
    requires x in g && !(g[x].shape.Named? && g[x].shape.alias)
    ensures forall w: Sym :: Denotes(g, x, w) <==> w == x
  {
    assert Unalias(g, x, 1) == Some(x) && Denotes(g, x, x);
    forall w: Sym | Denotes(g, x, w) ensures w == x { DenotesOne(g, x, x, w); }
  }

  /** Where the walk's rule starts, Go's does. */
  lemma StartDenotes(g: Graph, s: Sym, x: Entry) returns (e: Sym)
    requires s in g && x in Starts(g, s)
    ensures On(g, s, x.sym) && x.top && !x.ptr && x.depth == 0
    ensures g[x.sym].shape.Named? ==> x.sym == s
    ensures !g[x.sym].shape.Named? ==> Denotes(g, s, e) && Ends(g, e, x.sym)
  {
    hide Denotes, Ends, End;
    assert Route(g, x.sym, []) && Last(g, x.sym, []) == x.sym;
    StartsTop(g, s);
    e := s;
    if x.sym == s {
      if !g[s].shape.Named? {
        Stands(g, s);
        EndsSelf(g, s);
      }
    } else {
      EndIsEnds(g, g[s].shape.next, x.sym);
      EndsPlain(g, g[s].shape.next, x.sym);
      EndsNext(g, s, x.sym);
      e := Denoted(g, s, x.sym);
    }
  }

  lemma DenotedStarts(g: Graph, s: Sym, e: Sym) returns (x: Entry)
    requires s in g && Short(g, s) && AllClear(g, s) && !Defined(g, s) && Denotes(g, s, e)
    ensures Clear(g, e) && x in Starts(g, s) && Ends(g, e, x.sym) && x.sym in g && !g[x.sym].shape.Named?
  {
    hide Denotes, Ends, End, Clear;
    var w := ClearEnd(g, e);
    ClearEnds(g, e, w);
    x := Entry(w, false, 0, true);
    DenotesEnds(g, s, e, w);
    if g[s].shape.Named? {
      EndsNext(g, s, w);
      assert ShortAt(g, g[s].shape.next);
    } else {
      EndsPlain(g, s, w);
    }
  }

  /** From a queried type with nothing below it no way leads elsewhere. */
  lemma {:induction false} StaysHome(g: Graph, s: Sym, route: seq<nat>, t: Sym, ptr: bool)
    requires forall k: nat, v: Sym, p: bool :: Step(g, s, k, v, p) ==> v == s
    requires Path(g, s, route, t, ptr)
    ensures t == s
    decreases |route|
  {
    hide Step;
    if route != [] {
      var v: Sym, p: bool, q: bool :| Step(g, s, route[0], v, p) && Path(g, v, route[1..], t, q) && ptr == (p || q);
      StaysHome(g, s, route[1..], t, q);
    }
  }

  // ---- The two readings agree -------------------------------------------------------------------------

  lemma ReachOffers(g: Graph, s: Sym, a: Arrival) returns (t: Sym)
    requires s in g && Short(g, s) && Terms(g, s) && AllClear(g, s) && AliasBare(g, s) && Reaches(g, s, a)
    ensures Offers(g, s, a.name, a.depth, t) && Source(g, t, a.name, a.src) && t in g
  {
    hide On, Short, Terms, AllClear, Starts, Denotes, Ends, Route, Last, Hops, CrossesPtr, OverInterface, HasMember;
    hide Source, Specifies, DeclaresMethod, Path, Clear;
    var x, route :| x in Starts(g, s) && Provides(g, x, route, a);
    var e := StartDenotes(g, s, x);
    if g[x.sym].shape.Named? {
      NamedRoute(g, s, route);
      OwnOffers(g, s, a);
      t := s;
    } else {
      assert Clear(g, e) by { StartIsClear(g, s, x.sym, e); }
      ClearEnds(g, e, x.sym);
      if g[x.sym].shape.Interface? {
        t := e;
        InterfaceOffers(g, s, e, x.sym, route, a);
      } else {
        t := FieldOffers(g, s, x, route, a);
      }
    }
  }

  lemma StartIsClear(g: Graph, s: Sym, x: Sym, e: Sym)
    requires s in g && AllClear(g, s) && Denotes(g, s, e) && Ends(g, e, x) && x in g && !g[x].shape.Named?
    requires exists y :: y in Starts(g, s) && y.sym == x
    ensures Clear(g, e)
  {
    hide Denotes, Ends, Clear, End;
  }

  /** A method of the queried type itself. */
  lemma OwnOffers(g: Graph, s: Sym, a: Arrival)
    requires s in g && g[s].shape.Named? && AllClear(g, s) && AliasBare(g, s)
    requires a.src == s && a.depth == 0 && (Specifies(g, s, a.name) || DeclaresMethod(g, s, a.name, true))
    ensures Offers(g, s, a.name, a.depth, s) && Source(g, s, a.name, s)
  {
    hide Denotes, Ends, Step;
    Stands(g, s);
    NoStep(g, s);
    assert OffersBy(g, s, a.name, s, [], s, false);
  }

  lemma NoStep(g: Graph, t: Sym)
    ensures Path(g, t, [], t, false)
  {
  }

  /** A spec of the interface the queried type comes down to, or of one that embeds. */
  lemma InterfaceOffers(g: Graph, s: Sym, e: Sym, x: Sym, route: seq<nat>, a: Arrival)
    requires s in g && Short(g, s) && Terms(g, s) && On(g, s, x) && x in g && g[x].shape.Interface?
    requires Denotes(g, s, e) && Ends(g, e, x) && e in g && Route(g, x, route)
    requires a.src == Last(g, x, route) && a.depth == Hops(g, x, route)
    requires Specifies(g, a.src, a.name) || exists any :: DeclaresMethod(g, a.src, a.name, any)
    ensures Offers(g, s, a.name, a.depth, e) && Source(g, e, a.name, a.src)
  {
    hide On, Short, Terms, Denotes, Ends, Route, Last, Hops, Inside;
    InsideRoute(g, s, x, route, a.src);
    InterfaceRoute(g, x, route);
    assert Declares(g, e, a.name, a.src);
    NoStep(g, e);
    assert OffersBy(g, s, a.name, e, [], e, false);
  }

  /** What a way over fields leads to. */
  lemma FieldOffers(g: Graph, s: Sym, x: Entry, route: seq<nat>, a: Arrival) returns (t: Sym)
    requires s in g && Short(g, s) && Terms(g, s) && AllClear(g, s) && On(g, s, x.sym) && Denotes(g, s, x.sym)
    requires x.top && !x.ptr && x.depth == 0 && x.sym in g && !g[x.sym].shape.Named? && Provides(g, x, route, a)
    ensures Offers(g, s, a.name, a.depth, t) && Source(g, t, a.name, a.src) && t in g
  {
    hide On, Short, Terms, AllClear, Denotes, Ends, Route, Last, Hops, CrossesPtr, Path, Inside, OverInterface;
    var fields, w, elems, ptr;
    fields, t, w, elems, ptr := RoutePath(g, s, x.sym, route);
    ClearEnds(g, t, w);
    if g[w].shape.Interface? {
      InsideInterface(g, w, elems, a.src);
      assert Specifies(g, a.src, a.name);
      assert Declares(g, t, a.name, a.src);
    } else {
      assert HasMember(g, t, a.name, fields == [] || ptr);
    }
    assert OffersBy(g, s, a.name, x.sym, fields, t, ptr);
  }

  lemma NamedRoute(g: Graph, t: Sym, route: seq<nat>)
    requires t in g && g[t].shape.Named? && Route(g, t, route)
    ensures route == [] && Last(g, t, route) == t && Hops(g, t, route) == 0
  {
  }

  lemma {:induction false} InsideInterface(g: Graph, t: Sym, route: seq<nat>, d: Sym)
    requires Inside(g, t, route, d)
    ensures d in g && g[d].shape.Interface?
    decreases |route|
  {
    hide ElementAt;
    if route != [] {
      var v: Sym :| ElementAt(g, t, route[0], v) && Inside(g, v, route[1..], d);
      InsideInterface(g, v, route[1..], d);
    }
  }

  /** What Go's rule offers, the walk's provides no deeper. */
  lemma OffersReach(g: Graph, s: Sym, name: string, depth: nat, t: Sym, src: Sym) returns (a: Arrival)
    requires s in g && Short(g, s) && Terms(g, s) && AllClear(g, s) && Offers(g, s, name, depth, t)
    requires Source(g, t, name, src)
    ensures Reaches(g, s, a) && a.name == name && a.src == src && a.depth <= depth && t in g
  {
    hide On, Short, Terms, Starts, Denotes, Ends, Path, Source, HasMember, StartClear;
    var e: Sym, route: seq<nat>, ptr: bool :| |route| == depth && OffersBy(g, s, name, e, route, t, ptr);
    if Defined(g, s) {
      a := Arrival(name, 0, s);
      HomeReaches(g, s, name, e, route, t, ptr, src);
    } else {
      a := Arrival(name, depth, src);
      AwayReaches(g, s, name, e, route, t, ptr, src);
    }
  }

  lemma HomeReaches(g: Graph, s: Sym, name: string, e: Sym, route: seq<nat>, t: Sym, ptr: bool, src: Sym)
    requires s in g && AllClear(g, s) && Defined(g, s) && OffersBy(g, s, name, e, route, t, ptr)
    requires Source(g, t, name, src)
    ensures src == s && Reaches(g, s, Arrival(name, 0, s))
  {
    hide Denotes, Ends, Path, Step, OverInterface, End;
    Stands(g, s);
    StaysHome(g, s, route, t, ptr);
    var x := Entry(s, false, 0, true);
    assert x in Starts(g, s);
    assert Provides(g, x, [], Arrival(name, 0, s));
  }

  lemma AwayReaches(g: Graph, s: Sym, name: string, e: Sym, route: seq<nat>, t: Sym, ptr: bool, src: Sym)
    requires s in g && Short(g, s) && Terms(g, s) && AllClear(g, s) && !Defined(g, s)
    requires OffersBy(g, s, name, e, route, t, ptr) && Source(g, t, name, src)
    ensures Reaches(g, s, Arrival(name, |route|, src))
  {
    hide On, Short, Terms, AllClear, Starts, Denotes, Ends, Route, Last, Hops, CrossesPtr, Path, Inside, OverInterface;
    hide Clear, Defined;
    var x := DenotedStarts(g, s, e);
    var e' := StartDenotes(g, s, x);
    ClearPath(g, e, x.sym, route, t, ptr);
    var w := x.sym;
    if e == x.sym {
      w := PathRoute(g, s, e, route, t, ptr);
    } else {
      NoRoute(g, x.sym);
    }
    ClearEnds(g, t, w);
    if g[w].shape.Interface? {
      var v: Sym, more: seq<nat> :| Ends(g, t, v) && Inside(g, v, more, src) && src in g && Specifies(g, src, name);
      EndsOne(g, t, v, w);
      InsideRoute(g, s, w, more, src);
      RouteThen(g, x.sym, route, more);
      InterfaceRoute(g, w, more);
      assert Provides(g, x, route + more, Arrival(name, |route|, src));
    } else {
      assert Provides(g, x, route, Arrival(name, |route|, src));
    }
  }

  lemma NoRoute(g: Graph, t: Sym)
    requires t in g
    ensures Route(g, t, []) && Last(g, t, []) == t && Hops(g, t, []) == 0 && !CrossesPtr(g, t, [])
  {
  }

  /** A type that offers a name has it from somewhere. */
  lemma OffersSource(g: Graph, s: Sym, name: string, depth: nat, t: Sym) returns (src: Sym)
    requires Offers(g, s, name, depth, t)
    ensures Source(g, t, name, src)
  {
    hide Denotes, Path, OverInterface, Declares;
    var e: Sym, route: seq<nat>, ptr: bool :| |route| == depth && OffersBy(g, s, name, e, route, t, ptr);
    if OverInterface(g, t) { src :| Declares(g, t, name, src); } else { src := t; }
  }

  /** Interfaces have their names from interfaces, and nothing else has. */
  lemma SourceKind(g: Graph, name: string, t: Sym, src: Sym)
    requires t in g && Source(g, t, name, src)
    ensures src in g && (g[src].shape.Interface? <==> OverInterface(g, t))
  {
    hide Ends, Inside, OverInterface;
    if OverInterface(g, t) {
      var w: Sym, route: seq<nat> :| Ends(g, t, w) && Inside(g, w, route, src) && src in g && Specifies(g, src, name);
      InsideInterface(g, w, route, src);
    } else if g[t].shape.Interface? {
      PlainOver(g, t);
    }
  }

  /** Types that have the name from one and the same declaration have one member. */
  lemma SoleIsOne(g: Graph, name: string, t: Sym, u: Sym, src: Sym)
    requires SoleSource(g, t, name, src) && SoleSource(g, u, name, src) && t in g && u in g
    ensures OneMember(g, name, t, u)
  {
    hide Ends, Declares, OverInterface;
    SourceKind(g, name, t, src);
    SourceKind(g, name, u, src);
    if OverInterface(g, t) {
      forall d: Sym ensures Declares(g, t, name, d) <==> Declares(g, u, name, d) {
        assert (Source(g, t, name, d) <==> d == src) && (Source(g, u, name, d) <==> d == src);
      }
    }
  }

  lemma OneIsSole(g: Graph, name: string, t: Sym, u: Sym, src: Sym)
    requires OneMember(g, name, t, u) && SoleSource(g, t, name, src)
    ensures SoleSource(g, u, name, src)
  {
    hide Declares, OverInterface;
    forall d: Sym ensures Source(g, u, name, d) <==> d == src { assert Source(g, t, name, d) <==> d == src; }
  }

  // ---- The theorem ---------------------------------------------------------------------------------------

  /** What the walk's rule gives a name, every offer at that depth or before has it from there. */
  lemma OfferSole(g: Graph, s: Sym, a: Arrival, depth: nat, u: Sym)
    requires s in g && Short(g, s) && Terms(g, s) && AllClear(g, s) && InRule(g, s, a)
    requires Offers(g, s, a.name, depth, u) && depth <= a.depth
    ensures depth == a.depth && SoleSource(g, u, a.name, a.src) && u in g
  {
    hide Short, Terms, AllClear, Offers, Source, Reaches, On;
    var src := OffersSource(g, s, a.name, depth, u);
    var b := OffersReach(g, s, a.name, depth, u, src);
    forall d: Sym | Source(g, u, a.name, d) ensures d == src {
      var c := OffersReach(g, s, a.name, depth, u, d);
    }
  }

  /** Go's rule gives the name from that declaration: it promotes it from a type that has it from there
      and from nowhere else. */
  ghost predicate Granted(g: Graph, s: Sym, a: Arrival) {
    exists t: Sym :: Promoted(g, s, a.name, a.depth, t) && SoleSource(g, t, a.name, a.src)
  }

  lemma RulesAgree(g: Graph, s: Sym, a: Arrival)
    requires s in g && Short(g, s) && Terms(g, s) && AllClear(g, s) && AliasBare(g, s)
    ensures InRule(g, s, a) <==> Granted(g, s, a)
  {
    hide Short, Terms, AllClear, AliasBare, Offers, SoleSource, Reaches, On, OneMember;
    if InRule(g, s, a) {
      var t := ReachOffers(g, s, a);
      OfferSole(g, s, a, a.depth, t);
      forall d: nat, u: Sym | Offers(g, s, a.name, d, u)
        ensures d > a.depth || (d == a.depth && OneMember(g, a.name, t, u))
      {
        if d <= a.depth {
          OfferSole(g, s, a, d, u);
          SoleIsOne(g, a.name, t, u, a.src);
        }
      }
      assert Promoted(g, s, a.name, a.depth, t);
    }
    if t: Sym :| Promoted(g, s, a.name, a.depth, t) && SoleSource(g, t, a.name, a.src) { PromotedInRule(g, s, a, t); }
  }

  lemma PromotedInRule(g: Graph, s: Sym, a: Arrival, t: Sym)
    requires s in g && Short(g, s) && Terms(g, s) && AllClear(g, s) && AliasBare(g, s)
    requires Promoted(g, s, a.name, a.depth, t) && SoleSource(g, t, a.name, a.src)
    ensures InRule(g, s, a)
  {
    hide Short, Terms, AllClear, AliasBare, Offers, Source, Reaches, On, OneMember;
    var c := OffersReach(g, s, a.name, a.depth, t, a.src);
    var v := ReachOffers(g, s, c);
    assert c == a;
    forall b | Reaches(g, s, b) && b.name == a.name ensures b.depth > a.depth || b == a {
      var u := ReachOffers(g, s, b);
      if b.depth <= a.depth { OneIsSole(g, a.name, t, u, a.src); }
    }
  }

  /** Where spellings have at most eight layers, none of them a type defined by another's name but over
      an interface, no element of an interface is deferred and no method by pointer hidden: a name is in
      the method set exactly when Go's rule promotes it from a type that has it from one declaration
      only. */
  lemma MeetsRule(g: Graph, s: Sym, at: Timetable, a: Arrival)
    requires s in g && Regular(g, s) && AllClear(g, s) && AliasBare(g, s) && Schedule(g, s, at) && NoneDeferred(g, at)
    requires forall t: Sym :: Hidden(g, s, t) ==> forall m :: m in g[t].methods ==> !m.ptrRecv
    ensures InMethodSet(g, s, a) <==> Granted(g, s, a)
  {
    hide Short, Terms, AllClear, AliasBare, Schedule, NoneDeferred, InMethodSet, InRule, Hidden, Granted;
    MethodSetIff(g, s, at, a);
    RulesAgree(g, s, a);
  }
}
