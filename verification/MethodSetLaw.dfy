/** The declarative promotion rule, and what the walk finds of it. */
module MethodSetLaw {
  import opened Basics
  import opened MethodSet
  import opened MethodSetRecord

  // ---- The rule --------------------------------------------------------------------------

  /** The declaration a spelling comes down to: at most eight named layers further on. */
  function End(g: Graph, s: Sym, fuel: nat): (t: Option<Sym>)
    ensures t.Some? ==> t.value in g
    decreases fuel
  {
    if fuel == 0 || s !in g then None
    else if g[s].shape.Named? then End(g, g[s].shape.next, fuel - 1)
    else Some(s)
  }

  /** `t` refers to another declaration at place `k`. */
  predicate Refers(g: Graph, t: Sym, k: nat) {
    t in g && match g[t].shape
      case Named(_, _) => k == 0
      case Interface(elems) => k < |elems| && elems[k].Embedded?
      case Struct(fields) => k < |fields|
      case Opaque => false
  }

  function Target(g: Graph, t: Sym, k: nat): Sym
    requires Refers(g, t, k)
  {
    match g[t].shape
    case Named(next, _) => next
    case Interface(elems) => elems[k].sym
    case Struct(fields) => fields[k].sym
  }

  /** Where promotion goes on at place `k`: a field's declaration, or an interface's embedded
      interface. */
  function Next(g: Graph, t: Sym, k: nat): (r: Option<Sym>)
    requires t in g
    ensures r.Some? ==> r.value in g
  {
    if !Refers(g, t, k) || g[t].shape.Named? then None
    else
      var e := End(g, Target(g, t, k), LAYERS);
      if g[t].shape.Interface? && !IsInterface(g, e) then None else e
  }

  /** A way down the embedded declarations, by their places. */
  predicate Route(g: Graph, t: Sym, route: seq<nat>)
    requires t in g
    decreases |route|
  {
    route != [] ==> Next(g, t, route[0]).Some? && Route(g, Next(g, t, route[0]).value, route[1..])
  }

  function Last(g: Graph, t: Sym, route: seq<nat>): (r: Sym)
    requires t in g && Route(g, t, route)
    ensures r in g
    decreases |route|
  {
    if route == [] then t else Last(g, Next(g, t, route[0]).value, route[1..])
  }

  /** Embedding in an interface adds no depth. */
  function Hops(g: Graph, t: Sym, route: seq<nat>): nat
    requires t in g && Route(g, t, route)
    decreases |route|
  {
    if route == [] then 0
    else (if g[t].shape.Struct? then 1 else 0) + Hops(g, Next(g, t, route[0]).value, route[1..])
  }

  predicate ByPtr(g: Graph, t: Sym, k: nat)
    requires Refers(g, t, k)
  {
    g[t].shape.Struct? && g[t].shape.fields[k].byPtr
  }

  /** Some field on the way is embedded by pointer. */
  predicate CrossesPtr(g: Graph, t: Sym, route: seq<nat>)
    requires t in g && Route(g, t, route)
    decreases |route|
  {
    route != [] && (ByPtr(g, t, route[0]) || CrossesPtr(g, Next(g, t, route[0]).value, route[1..]))
  }

  predicate Specifies(g: Graph, t: Sym, name: string)
    requires t in g
  {
    g[t].shape.Interface? && Spec(name) in g[t].shape.elems
  }

  predicate DeclaresMethod(g: Graph, t: Sym, name: string, any: bool)
    requires t in g
  {
    !g[t].shape.Interface? && exists m :: m in g[t].methods && m.name == name && (any || !m.ptrRecv)
  }

  /** The declaration at the end of the way provides the name: an interface its specs, any other
      type its methods, those with pointer receivers behind a pointer or on the queried type. */
  predicate Provides(g: Graph, e: Entry, route: seq<nat>, a: Arrival)
    requires e.sym in g
  {
    && Route(g, e.sym, route)
    && a.src == Last(g, e.sym, route)
    && a.depth == e.depth + Hops(g, e.sym, route)
    && (Specifies(g, a.src, a.name)
        || DeclaresMethod(g, a.src, a.name, (e.top && route == []) || e.ptr || CrossesPtr(g, e.sym, route)))
  }

  /** Where the rule starts: the declaration, and for an alias its target. */
  function Starts(g: Graph, s: Sym): (r: seq<Entry>)
    requires s in g
    ensures forall e :: e in r ==> e.sym in g
  {
    var self := Entry(s, false, 0, true);
    var t := if g[s].shape.Named? && g[s].shape.alias then End(g, g[s].shape.next, LAYERS) else None;
    if t.Some? then [self, Entry(t.value, false, 0, true)] else [self]
  }

  ghost predicate Reaches(g: Graph, s: Sym, a: Arrival)
    requires s in g
  {
    exists e, route :: e in Starts(g, s) && Provides(g, e, route, a)
  }

  // ---- Steps of a route ----------------------------------------------------------------------

  lemma RouteCons(g: Graph, t: Sym, k: nat, rest: seq<nat>)
    requires t in g && Next(g, t, k).Some? && Route(g, Next(g, t, k).value, rest)
    ensures Route(g, t, [k] + rest)
    ensures var n := Next(g, t, k).value;
      && Last(g, t, [k] + rest) == Last(g, n, rest)
      && Hops(g, t, [k] + rest) == (if g[t].shape.Struct? then 1 else 0) + Hops(g, n, rest)
      && CrossesPtr(g, t, [k] + rest) == (ByPtr(g, t, k) || CrossesPtr(g, n, rest))
  {
    assert ([k] + rest)[1..] == rest;
  }

  lemma {:induction false} RouteThen(g: Graph, t: Sym, a: seq<nat>, b: seq<nat>)
    requires t in g && Route(g, t, a) && Route(g, Last(g, t, a), b)
    ensures Route(g, t, a + b) && Last(g, t, a + b) == Last(g, Last(g, t, a), b)
    ensures Hops(g, t, a + b) == Hops(g, t, a) + Hops(g, Last(g, t, a), b)
    decreases |a|
  {
    hide Next;
    if a == [] {
      assert a + b == b;
    } else {
      assert (a + b)[1..] == a[1..] + b && (a + b)[0] == a[0];
      RouteThen(g, Next(g, t, a[0]).value, a[1..], b);
    }
  }

  lemma {:induction false} InterfaceRoute(g: Graph, t: Sym, route: seq<nat>)
    requires t in g && g[t].shape.Interface? && Route(g, t, route)
    ensures Hops(g, t, route) == 0 && g[Last(g, t, route)].shape.Interface?
    decreases |route|
  {
    if route != [] { InterfaceRoute(g, Next(g, t, route[0]).value, route[1..]); }
  }

  // ---- Everything the walk meets is provided ------------------------------------------------------

  lemma {:induction false} ChaseEnds(g: Graph, s: Sym, visited: set<Sym>, fuel: nat)
    requires Chase(g, s, visited, fuel).0.Some?
    ensures End(g, s, fuel) == Chase(g, s, visited, fuel).0
    decreases fuel
  {
    if s in g && g[s].shape.Named? { ChaseEnds(g, g[s].shape.next, visited + {s}, fuel - 1); }
  }

  lemma {:induction false} FlattenSound(g: Graph, src: Sym, i: nat, depth: nat, visited: set<Sym>, a: Arrival)
    returns (route: seq<nat>)
    requires IsInterface(g, Some(src)) && i <= |g[src].shape.elems| && a in Flatten(g, src, i, depth, visited).0
    ensures Route(g, src, route) && a.src == Last(g, src, route) && Specifies(g, a.src, a.name) && a.depth == depth
    decreases g.Keys - visited, |g[src].shape.elems| - i
  {
    hide Chase, End;
    var elems := g[src].shape.elems;
    route := [];
    if elems[i].Spec? {
      if a != Arrival(elems[i].name, depth, src) { route := FlattenSound(g, src, i + 1, depth, visited, a); }
    } else {
      var c := Chase(g, elems[i].sym, visited, LAYERS);
      if !IsInterface(g, c.0) {
        route := FlattenSound(g, src, i + 1, depth, c.1, a);
      } else {
        var t := c.0.value;
        ChaseEnds(g, elems[i].sym, visited, LAYERS);
        var f := Flatten(g, t, 0, depth, c.1);
        if a in f.0 {
          var rest := FlattenSound(g, t, 0, depth, c.1, a);
          RouteCons(g, src, i, rest);
          route := [i] + rest;
        } else {
          route := FlattenSound(g, src, i + 1, depth, f.1, a);
        }
      }
    }
  }

  lemma {:induction false} MethodsSound(ms: seq<Method>, e: Entry, a: Arrival)
    ensures a in Methods(ms, e) <==>
      a.src == e.sym && a.depth == e.depth && exists m :: m in ms && m.name == a.name && (e.top || e.ptr || !m.ptrRecv)
  {
    if ms != [] {
      MethodsSound(ms[1..], e, a);
      assert forall m :: m in ms <==> m == ms[0] || m in ms[1..];
    }
  }

  /** A new entry stands for a step at some place. */
  lemma {:induction false} PushSound(g: Graph, e: Entry, i: nat, visited: set<Sym>, x: Entry) returns (k: nat)
    requires e.sym in g && g[e.sym].shape.Struct? && i <= |g[e.sym].shape.fields| && x in Push(g, e, i, visited).0
    ensures Refers(g, e.sym, k) && Next(g, e.sym, k) == Some(x.sym)
    ensures x.ptr == (e.ptr || ByPtr(g, e.sym, k)) && x.depth == e.depth + 1 && !x.top
    decreases |g[e.sym].shape.fields| - i
  {
    hide Chase, End;
    var fields := g[e.sym].shape.fields;
    var c := Chase(g, fields[i].sym, visited, LAYERS);
    if c.0.Some? && x == Entry(c.0.value, e.ptr || fields[i].byPtr, e.depth + 1, false) {
      ChaseEnds(g, fields[i].sym, visited, LAYERS);
      k := i;
    } else {
      k := PushSound(g, e, i + 1, c.1, x);
    }
  }

  lemma OwnProvides(g: Graph, e: Entry, visited: set<Sym>, a: Arrival) returns (route: seq<nat>)
    requires e.sym in g && a in Round(g, e, visited).0
    ensures Provides(g, e, route, a)
  {
    hide Flatten, Methods, Push;
    if g[e.sym].shape.Interface? {
      route := FlattenSound(g, e.sym, 0, e.depth, visited, a);
      InterfaceRoute(g, e.sym, route);
    } else {
      route := [];
      MethodsSound(g[e.sym].methods, e, a);
    }
  }

  lemma {:induction false} WalkSound(g: Graph, queue: seq<Entry>, visited: set<Sym>, a: Arrival)
    returns (e: Entry, route: seq<nat>)
    requires (forall x :: x in queue ==> x.sym in g) && a in Walk(g, queue, visited)
    ensures e in queue && Provides(g, e, route, a)
    decreases g.Keys - visited, |queue|
  {
    hide Round, Provides;
    var q := queue[0];
    var r := Round(g, q, visited);
    if a in r.0 {
      e := q;
      route := OwnProvides(g, q, visited, a);
    } else {
      e, route := WalkSound(g, queue[1..] + r.1, r.2, a);
      if e !in queue {
        var x := e;
        assert g[q.sym].shape.Struct? && x in Push(g, q, 0, visited).0 by { RoundPushes(g, q, visited, x); }
        var k := PushSound(g, q, 0, visited, x);
        ProvidesThrough(g, q, k, x, route, a);
        e, route := q, [k] + route;
      }
    }
  }

  lemma RoundPushes(g: Graph, q: Entry, visited: set<Sym>, x: Entry)
    requires q.sym in g && x in Round(g, q, visited).1
    ensures g[q.sym].shape.Struct? && x in Push(g, q, 0, visited).0
  {
  }

  /** What a field's entry provides, the struct provides one place further up. */
  lemma ProvidesThrough(g: Graph, e: Entry, k: nat, x: Entry, rest: seq<nat>, a: Arrival)
    requires e.sym in g && g[e.sym].shape.Struct? && Refers(g, e.sym, k) && Next(g, e.sym, k) == Some(x.sym)
    requires x.ptr == (e.ptr || ByPtr(g, e.sym, k)) && x.depth == e.depth + 1 && !x.top
    ensures Provides(g, x, rest, a) <==> Provides(g, e, [k] + rest, a)
  {
    hide Next, ByPtr, Specifies, DeclaresMethod;
    assert ([k] + rest)[1..] == rest;
    if Route(g, x.sym, rest) { RouteCons(g, e.sym, k, rest); }
  }

  // ---- In order of depth -------------------------------------------------------------------------

  predicate Queued(q: seq<Entry>) {
    forall i, j :: 0 <= i <= j < |q| ==> q[i].depth <= q[j].depth <= q[i].depth + 1
  }

  predicate AllAt(arr: seq<Arrival>, d: nat) {
    forall a :: a in arr ==> a.depth == d
  }

  lemma RoundDepth(g: Graph, e: Entry, visited: set<Sym>)
    requires e.sym in g
    ensures AllAt(Round(g, e, visited).0, e.depth)
    ensures forall x :: x in Round(g, e, visited).1 ==> x.depth == e.depth + 1
  {
    hide Flatten, Methods, Push;
    forall a | a in Round(g, e, visited).0 ensures a.depth == e.depth {
      if g[e.sym].shape.Interface? {
        var route := FlattenSound(g, e.sym, 0, e.depth, visited, a);
      } else {
        MethodsSound(g[e.sym].methods, e, a);
      }
    }
    forall x | x in Round(g, e, visited).1 ensures x.depth == e.depth + 1 {
      RoundPushes(g, e, visited, x);
      var k := PushSound(g, e, 0, visited, x);
    }
  }

  lemma QueuedOn(q: seq<Entry>, more: seq<Entry>)
    requires q != [] && Queued(q) && forall x :: x in more ==> x.depth == q[0].depth + 1
    ensures Queued(q[1..] + more)
    ensures forall x :: x in q[1..] + more ==> x.depth >= q[0].depth
  {
    var n := q[1..] + more;
    assert forall i :: 0 <= i < |q| - 1 ==> n[i] == q[i + 1];
    assert forall i :: |q| - 1 <= i < |n| ==> n[i] in more;
    assert forall i :: 0 <= i < |n| ==> q[0].depth <= n[i].depth <= q[0].depth + 1;
  }

  lemma {:induction false} WalkOrdered(g: Graph, queue: seq<Entry>, visited: set<Sym>, d: nat)
    requires (forall x :: x in queue ==> x.sym in g) && Queued(queue) && forall x :: x in queue ==> x.depth >= d
    ensures Ordered(Walk(g, queue, visited))
    ensures forall a :: a in Walk(g, queue, visited) ==> a.depth >= d
    decreases g.Keys - visited, |queue|
  {
    hide Round;
    if queue != [] {
      var q := queue[0];
      var r := Round(g, q, visited);
      RoundDepth(g, q, visited);
      QueuedOn(queue, r.1);
      WalkOrdered(g, queue[1..] + r.1, r.2, q.depth);
      OrderedAppend(r.0, Walk(g, queue[1..] + r.1, r.2), q.depth);
    }
  }

  lemma OrderedAppend(a: seq<Arrival>, b: seq<Arrival>, d: nat)
    requires AllAt(a, d) && Ordered(b) && forall x :: x in b ==> x.depth >= d
    ensures Ordered(a + b)
  {
    var c := a + b;
    forall i, j | 0 <= i < j < |c| ensures c[i].depth <= c[j].depth {
      if i < |a| { assert c[i] in a; }
      if j < |a| { assert c[j] in a; } else { assert c[j] == b[j - |a|]; }
      if i >= |a| { assert c[i] == b[i - |a|]; }
    }
  }
}
