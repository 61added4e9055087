/** What the walk has seen: a declaration it visited was queued or flattened, and with it all it
    leads to. */
module MethodSetCover {
  import opened Basics
  import opened MethodSet
  import opened MethodSetLaw

  // ---- Named layers ------------------------------------------------------------------------

  /** Following the named layers of `x`, however many, comes down to `u`. */
  ghost predicate Ends(g: Graph, x: Sym, u: Sym) {
    exists n: nat :: End(g, x, n) == Some(u)
  }

  lemma {:induction false} EndMore(g: Graph, x: Sym, n: nat, m: nat)
    requires End(g, x, n).Some? && n <= m
    ensures End(g, x, m) == End(g, x, n)
    decreases n
  {
    if g[x].shape.Named? { EndMore(g, g[x].shape.next, n - 1, m - 1); }
  }

  lemma {:induction false} EndIsPlain(g: Graph, x: Sym, n: nat)
    requires End(g, x, n).Some?
    ensures !g[End(g, x, n).value].shape.Named?
    decreases n
  {
    if g[x].shape.Named? { EndIsPlain(g, g[x].shape.next, n - 1); }
  }

  lemma EndsPlain(g: Graph, x: Sym, u: Sym)
    requires Ends(g, x, u)
    ensures u in g && !g[u].shape.Named? && (x in g && !g[x].shape.Named? ==> u == x)
  {
    var n: nat :| End(g, x, n) == Some(u);
    EndIsPlain(g, x, n);
  }

  lemma EndsSelf(g: Graph, x: Sym)
    requires x in g && !g[x].shape.Named?
    ensures Ends(g, x, x)
  {
    assert End(g, x, 1) == Some(x);
  }

  lemma EndsNext(g: Graph, x: Sym, u: Sym)
    requires x in g && g[x].shape.Named?
    ensures Ends(g, x, u) <==> Ends(g, g[x].shape.next, u)
  {
    if n: nat :| End(g, x, n) == Some(u) { assert End(g, g[x].shape.next, n - 1) == Some(u); }
    if n: nat :| End(g, g[x].shape.next, n) == Some(u) { assert End(g, x, n + 1) == Some(u); }
  }

  /** The layers marked lead where the spelling leads. */
  lemma {:induction false} ChaseMarks(g: Graph, x: Sym, visited: set<Sym>, fuel: nat, v: Sym, u: Sym)
    requires v in Chase(g, x, visited, fuel).1 && v !in visited
    ensures Ends(g, v, u) <==> Ends(g, x, u)
    decreases fuel
  {
    hide Ends;
    if v != x {
      EndsNext(g, x, u);
      ChaseMarks(g, g[x].shape.next, visited + {x}, fuel - 1, v, u);
    }
  }

  /** The one declaration newly marked that is no named layer is the one returned. */
  lemma {:induction false} ChaseFinds(g: Graph, x: Sym, visited: set<Sym>, fuel: nat, v: Sym)
    requires v in Chase(g, x, visited, fuel).1 && v !in visited && v in g && !g[v].shape.Named?
    ensures Chase(g, x, visited, fuel).0 == Some(v)
    decreases fuel
  {
    if v != x { ChaseFinds(g, g[x].shape.next, visited + {x}, fuel - 1, v); }
  }

  /** Whatever was visited, what it comes down to was. */
  ghost predicate Resolved(g: Graph, visited: set<Sym>) {
    forall v: Sym, u: Sym :: v in visited && Ends(g, v, u) ==> u in visited
  }

  /** A chase that is long enough visits what the spelling comes down to; `c` are the layers it has
      passed, `n` those before it. */
  lemma {:induction false} ChaseReaches(g: Graph, x: Sym, base: set<Sym>, c: set<Sym>, n: nat, fuel: nat, u: Sym)
    requires Resolved(g, base) && End(g, x, n) == Some(u) && n >= 1 && End(g, x, n - 1).None? && n <= fuel
    requires forall v :: v in c ==> End(g, v, n).None?
    ensures u in Chase(g, x, base + c, fuel).1
    decreases n
  {
    if x in base {
      assert Ends(g, x, u);
    } else if g[x].shape.Named? {
      var y := g[x].shape.next;
      forall v | v in c + {x} ensures End(g, v, n - 1).None? {
        if End(g, v, n - 1).Some? { EndMore(g, v, n - 1, n); }
      }
      assert base + c + {x} == base + (c + {x});
      ChaseReaches(g, y, base, c + {x}, n - 1, fuel - 1, u);
    }
  }

  lemma {:induction false} LeastEnd(g: Graph, x: Sym, n: nat, u: Sym) returns (m: nat)
    requires End(g, x, n) == Some(u)
    ensures 1 <= m <= n && End(g, x, m) == Some(u) && End(g, x, m - 1).None?
    decreases n
  {
    if End(g, x, n - 1).None? {
      m := n;
    } else {
      EndMore(g, x, n - 1, n);
      m := LeastEnd(g, x, n - 1, u);
    }
  }

  /** The spelling has at most eight layers, if it comes down to anything. */
  ghost predicate ShortAt(g: Graph, x: Sym) {
    forall u: Sym :: Ends(g, x, u) ==> End(g, x, LAYERS) == Some(u)
  }

  lemma ChaseResolves(g: Graph, x: Sym, visited: set<Sym>)
    requires Resolved(g, visited) && ShortAt(g, x)
    ensures var c := Chase(g, x, visited, LAYERS);
      && Resolved(g, c.1)
      && (forall u: Sym :: Ends(g, x, u) ==> u in c.1)
      && (c.0.Some? ==> Ends(g, x, c.0.value) && End(g, x, LAYERS) == c.0)
      && (c.0.None? && End(g, x, LAYERS).Some? ==> End(g, x, LAYERS).value in visited)
  {
    hide Chase;
    var c := Chase(g, x, visited, LAYERS);
    forall u: Sym | Ends(g, x, u) ensures u in c.1 {
      var n := LeastEnd(g, x, LAYERS, u);
      assert visited + {} == visited;
      ChaseReaches(g, x, visited, {}, n, LAYERS, u);
    }
    forall v: Sym, u: Sym | v in c.1 && Ends(g, v, u) ensures u in c.1 {
      if v !in visited { ChaseMarks(g, x, visited, LAYERS, v, u); }
    }
    if c.0.Some? { ChaseEnds(g, x, visited, LAYERS); }
    var e := End(g, x, LAYERS);
    if c.0.None? && e.Some? {
      assert Ends(g, x, e.value);
      EndIsPlain(g, x, LAYERS);
      if e.value !in visited { ChaseFinds(g, x, visited, LAYERS, e.value); }
    }
  }

  // ---- The conditions ------------------------------------------------------------------------

  /** `t` stands at the end of some way down from where the rule starts. */
  ghost predicate On(g: Graph, s: Sym, t: Sym)
    requires s in g
  {
    exists e, route :: e in Starts(g, s) && Route(g, e.sym, route) && Last(g, e.sym, route) == t
  }

  /** A place on such a way where an embedded declaration is referred to. */
  ghost predicate LiveAt(g: Graph, s: Sym, t: Sym, k: nat)
    requires s in g
  {
    On(g, s, t) && Refers(g, t, k) && !g[t].shape.Named?
  }

  /** Spellings on the way have at most eight layers, if they come down to anything. */
  ghost predicate Short(g: Graph, s: Sym)
    requires s in g
  {
    && (forall t: Sym, k: nat :: LiveAt(g, s, t, k) ==> ShortAt(g, Target(g, t, k)))
    && (g[s].shape.Named? ==> ShortAt(g, g[s].shape.next))
  }

  /** Interfaces embed interfaces only: no constraint terms. */
  ghost predicate Terms(g: Graph, s: Sym)
    requires s in g
  {
    forall t: Sym, k: nat, u: Sym :: LiveAt(g, s, t, k) && g[t].shape.Interface? && Ends(g, Target(g, t, k), u) ==>
      g[u].shape.Interface?
  }

  lemma {:induction false} RouteSnoc(g: Graph, t: Sym, route: seq<nat>, k: nat)
    requires t in g
    ensures Route(g, t, route + [k]) <==> Route(g, t, route) && Next(g, Last(g, t, route), k).Some?
    ensures Route(g, t, route + [k]) ==>
      && Last(g, t, route + [k]) == Next(g, Last(g, t, route), k).value
      && Hops(g, t, route + [k]) == Hops(g, t, route) + (if g[Last(g, t, route)].shape.Struct? then 1 else 0)
      && CrossesPtr(g, t, route + [k]) == (CrossesPtr(g, t, route) || ByPtr(g, Last(g, t, route), k))
    decreases |route|
  {
    hide Next, ByPtr;
    if route == [] {
      assert route + [k] == [k] && [k][1..] == [];
    } else {
      assert (route + [k])[1..] == route[1..] + [k] && (route + [k])[0] == route[0];
      if Next(g, t, route[0]).Some? { RouteSnoc(g, Next(g, t, route[0]).value, route[1..], k); }
    }
  }

  lemma OnNext(g: Graph, s: Sym, t: Sym, k: nat)
    requires s in g && On(g, s, t) && t in g && Next(g, t, k).Some?
    ensures On(g, s, Next(g, t, k).value)
  {
    hide Next;
    var e, route :| e in Starts(g, s) && Route(g, e.sym, route) && Last(g, e.sym, route) == t;
    RouteSnoc(g, e.sym, route, k);
  }

  lemma NextEnds(g: Graph, s: Sym, t: Sym, k: nat)
    requires s in g && LiveAt(g, s, t, k) && Short(g, s) && Terms(g, s)
    ensures Next(g, t, k) == End(g, Target(g, t, k), LAYERS)
    ensures Next(g, t, k).Some? ==> Ends(g, Target(g, t, k), Next(g, t, k).value)
    ensures forall u: Sym :: Ends(g, Target(g, t, k), u) ==> Next(g, t, k) == Some(u)
  {
    hide End;
    var e := End(g, Target(g, t, k), LAYERS);
    assert e.Some? ==> Ends(g, Target(g, t, k), e.value);
  }

  // ---- Flattening ------------------------------------------------------------------------------

  /** Among `out`, the specs `t` itself lists, from element `i` on. */
  ghost predicate Listed(g: Graph, t: Sym, i: nat, depth: nat, out: seq<Arrival>)
    requires t in g && g[t].shape.Interface?
  {
    forall k :: i <= k < |g[t].shape.elems| && g[t].shape.elems[k].Spec? ==>
      Arrival(g[t].shape.elems[k].name, depth, t) in out
  }

  /** What the elements of `t` from `i` on come down to was visited. */
  ghost predicate Entered(g: Graph, t: Sym, i: nat, visited: set<Sym>)
    requires t in g && g[t].shape.Interface?
  {
    forall k: nat, u: Sym :: i <= k && Refers(g, t, k) && Ends(g, Target(g, t, k), u) ==> u in visited
  }

  /** Everything newly visited comes down to an interface whose specs are listed and whose elements
      were visited, and which is on the way. */
  ghost predicate Flattened(g: Graph, s: Sym, before: set<Sym>, after: set<Sym>, depth: nat, out: seq<Arrival>)
    requires s in g
  {
    forall u: Sym :: u in after && u !in before && u in g && !g[u].shape.Named? ==>
      && g[u].shape.Interface? && On(g, s, u) && Listed(g, u, 0, depth, out) && Entered(g, u, 0, after)
  }

  lemma FlattenedMore(g: Graph, s: Sym, a: set<Sym>, b: set<Sym>, b': set<Sym>, depth: nat, out: seq<Arrival>,
      out': seq<Arrival>)
    requires s in g && Flattened(g, s, a, b, depth, out) && b <= b' && forall x :: x in out ==> x in out'
    ensures forall u: Sym :: u in b && u !in a && u in g && !g[u].shape.Named? ==>
      && g[u].shape.Interface? && On(g, s, u) && Listed(g, u, 0, depth, out') && Entered(g, u, 0, b')
  {
    hide On, Ends, Refers;
    forall u: Sym | u in b && u !in a && u in g && !g[u].shape.Named?
      ensures g[u].shape.Interface? && On(g, s, u) && Listed(g, u, 0, depth, out')
      ensures Entered(g, u, 0, b')
    {
      assert Listed(g, u, 0, depth, out) && Entered(g, u, 0, b);
    }
  }

  /** One element of an interface: the places it marks, and that it is on the way. */
  lemma ElementMarks(g: Graph, s: Sym, src: Sym, i: nat, visited: set<Sym>)
    requires s in g && Short(g, s) && Terms(g, s) && On(g, s, src) && Resolved(g, visited)
    requires IsInterface(g, Some(src)) && i < |g[src].shape.elems| && g[src].shape.elems[i].Embedded?
    ensures var c := Chase(g, g[src].shape.elems[i].sym, visited, LAYERS);
      && Resolved(g, c.1) && (forall u: Sym :: Ends(g, Target(g, src, i), u) ==> u in c.1)
      && (c.0.Some? ==> IsInterface(g, c.0) && On(g, s, c.0.value))
      && (forall v :: v in c.1 && v !in visited && v in g && !g[v].shape.Named? ==> c.0 == Some(v))
  {
    hide Chase, End, Ends, On, Resolved, ShortAt, Next;
    var x := g[src].shape.elems[i].sym;
    assert LiveAt(g, s, src, i) && Target(g, src, i) == x && Refers(g, src, i);
    ChaseResolves(g, x, visited);
    NextEnds(g, s, src, i);
    var c := Chase(g, x, visited, LAYERS);
    forall v | v in c.1 && v !in visited && v in g && !g[v].shape.Named? ensures c.0 == Some(v) {
      ChaseFinds(g, x, visited, LAYERS, v);
    }
    if c.0.Some? {
      assert Ends(g, x, c.0.value) && Next(g, src, i) == c.0;
      OnNext(g, s, src, i);
    }
  }

  ghost predicate Closes(g: Graph, s: Sym, src: Sym, i: nat, depth: nat, visited: set<Sym>, r: (seq<Arrival>, set<Sym>))
    requires s in g && src in g && g[src].shape.Interface?
  {
    && visited <= r.1 && Resolved(g, r.1) && Listed(g, src, i, depth, r.0) && Entered(g, src, i, r.1)
    && Flattened(g, s, visited, r.1, depth, r.0)
  }

  lemma ClosesSpec(g: Graph, s: Sym, src: Sym, i: nat, depth: nat, visited: set<Sym>, r: (seq<Arrival>, set<Sym>))
    requires s in g && IsInterface(g, Some(src)) && i < |g[src].shape.elems| && g[src].shape.elems[i].Spec?
    requires Closes(g, s, src, i + 1, depth, visited, r)
    ensures Closes(g, s, src, i, depth, visited, ([Arrival(g[src].shape.elems[i].name, depth, src)] + r.0, r.1))
  {
    hide On, Ends, Resolved, Flattened;
    var out := [Arrival(g[src].shape.elems[i].name, depth, src)] + r.0;
    FlattenedMore(g, s, visited, r.1, r.1, depth, r.0, out);
    assert Flattened(g, s, visited, r.1, depth, out) by { FlattenedIs(g, s, visited, r.1, depth, out); }
    assert Entered(g, src, i, r.1) by {
      forall k: nat, u: Sym | i <= k && Refers(g, src, k) && Ends(g, Target(g, src, k), u) ensures u in r.1 {
        assert k != i;
      }
    }
  }

  lemma FlattenedIs(g: Graph, s: Sym, a: set<Sym>, b: set<Sym>, depth: nat, out: seq<Arrival>)
    requires s in g
    requires forall u: Sym :: u in b && u !in a && u in g && !g[u].shape.Named? ==>
      && g[u].shape.Interface? && On(g, s, u) && Listed(g, u, 0, depth, out) && Entered(g, u, 0, b)
    ensures Flattened(g, s, a, b, depth, out)
  {
    hide On, Listed, Entered;
  }

  /** An element that leads nowhere new. */
  lemma ClosesBlocked(g: Graph, s: Sym, src: Sym, i: nat, depth: nat, visited: set<Sym>, c: set<Sym>,
      r: (seq<Arrival>, set<Sym>))
    requires s in g && IsInterface(g, Some(src)) && i < |g[src].shape.elems| && g[src].shape.elems[i].Embedded?
    requires visited <= c && (forall u: Sym :: Ends(g, Target(g, src, i), u) ==> u in c)
    requires forall v :: v in c && v !in visited && v in g ==> g[v].shape.Named?
    requires Closes(g, s, src, i + 1, depth, c, r)
    ensures Closes(g, s, src, i, depth, visited, r)
  {
    hide On, Ends, Resolved;
    forall k: nat, u: Sym | i <= k && Refers(g, src, k) && Ends(g, Target(g, src, k), u) ensures u in r.1 {
      if k == i { assert u in c; }
    }
  }

  /** An element whose interface is flattened before the rest. */
  lemma ClosesNested(g: Graph, s: Sym, src: Sym, i: nat, depth: nat, visited: set<Sym>, c: set<Sym>, t: Sym,
      f: (seq<Arrival>, set<Sym>), r: (seq<Arrival>, set<Sym>))
    requires s in g && IsInterface(g, Some(src)) && i < |g[src].shape.elems| && g[src].shape.elems[i].Embedded?
    requires visited <= c && (forall u: Sym :: Ends(g, Target(g, src, i), u) ==> u in c)
    requires forall v :: v in c && v !in visited && v in g && !g[v].shape.Named? ==> v == t
    requires IsInterface(g, Some(t)) && On(g, s, t)
    requires Closes(g, s, t, 0, depth, c, f) && Closes(g, s, src, i + 1, depth, f.1, r)
    ensures Closes(g, s, src, i, depth, visited, (f.0 + r.0, r.1))
  {
    hide On, Ends, Resolved, Flattened, Refers;
    var out := f.0 + r.0;
    FlattenedMore(g, s, c, f.1, r.1, depth, f.0, out);
    FlattenedMore(g, s, f.1, r.1, r.1, depth, r.0, out);
    forall k: nat, u: Sym | i <= k && Refers(g, src, k) && Ends(g, Target(g, src, k), u) ensures u in r.1 {
      if k == i { assert u in c; }
    }
    assert Listed(g, t, 0, depth, out) && Entered(g, t, 0, r.1);
    FlattenedIs(g, s, visited, r.1, depth, out);
  }

  lemma {:induction false} FlattenCloses(g: Graph, s: Sym, src: Sym, i: nat, depth: nat, visited: set<Sym>)
    requires s in g && Short(g, s) && Terms(g, s) && On(g, s, src) && Resolved(g, visited)
    requires IsInterface(g, Some(src)) && i <= |g[src].shape.elems|
    ensures Closes(g, s, src, i, depth, visited, Flatten(g, src, i, depth, visited))
    decreases g.Keys - visited, |g[src].shape.elems| - i
  {
    hide Chase, Ends, Short, Terms, On, Resolved, Closes;
    var elems := g[src].shape.elems;
    if i == |elems| {
      ClosesEmpty(g, s, src, depth, visited);
    } else if elems[i].Spec? {
      FlattenCloses(g, s, src, i + 1, depth, visited);
      ClosesSpec(g, s, src, i, depth, visited, Flatten(g, src, i + 1, depth, visited));
    } else {
      ElementMarks(g, s, src, i, visited);
      var c := Chase(g, elems[i].sym, visited, LAYERS);
      if !IsInterface(g, c.0) {
        FlattenCloses(g, s, src, i + 1, depth, c.1);
        ClosesBlocked(g, s, src, i, depth, visited, c.1, Flatten(g, src, i + 1, depth, c.1));
      } else {
        var t := c.0.value;
        FlattenCloses(g, s, t, 0, depth, c.1);
        var f := Flatten(g, t, 0, depth, c.1);
        assert Resolved(g, f.1) by { ClosesResolved(g, s, t, 0, depth, c.1, f); }
        FlattenCloses(g, s, src, i + 1, depth, f.1);
        ClosesNested(g, s, src, i, depth, visited, c.1, t, f, Flatten(g, src, i + 1, depth, f.1));
      }
    }
  }

  lemma ClosesEmpty(g: Graph, s: Sym, src: Sym, depth: nat, visited: set<Sym>)
    requires s in g && IsInterface(g, Some(src)) && Resolved(g, visited)
    ensures Closes(g, s, src, |g[src].shape.elems|, depth, visited, ([], visited))
  {
    hide Ends, On, Resolved;
  }

  lemma ClosesResolved(g: Graph, s: Sym, src: Sym, i: nat, depth: nat, visited: set<Sym>, r: (seq<Arrival>, set<Sym>))
    requires s in g && src in g && g[src].shape.Interface? && Closes(g, s, src, i, depth, visited, r)
    ensures Resolved(g, r.1)
  {
    hide Resolved;
  }

  /** A spec met comes from the interface itself or from one that was newly visited. */
  lemma {:induction false} FlattenFrom(g: Graph, src: Sym, i: nat, depth: nat, visited: set<Sym>, a: Arrival)
    requires IsInterface(g, Some(src)) && i <= |g[src].shape.elems| && a in Flatten(g, src, i, depth, visited).0
    ensures a.depth == depth && IsInterface(g, Some(a.src)) && Specifies(g, a.src, a.name)
    ensures a.src == src || (a.src !in visited && a.src in Flatten(g, src, i, depth, visited).1)
    decreases g.Keys - visited, |g[src].shape.elems| - i
  {
    hide Chase;
    var elems := g[src].shape.elems;
    if elems[i].Spec? {
      if a != Arrival(elems[i].name, depth, src) { FlattenFrom(g, src, i + 1, depth, visited, a); }
    } else {
      var c := Chase(g, elems[i].sym, visited, LAYERS);
      if !IsInterface(g, c.0) {
        FlattenFrom(g, src, i + 1, depth, c.1, a);
      } else {
        var f := Flatten(g, c.0.value, 0, depth, c.1);
        if a in f.0 {
          FlattenFrom(g, c.0.value, 0, depth, c.1, a);
        } else {
          FlattenFrom(g, src, i + 1, depth, f.1, a);
        }
      }
    }
  }

  /** All the way but its start is within the set. */
  predicate Through(g: Graph, t: Sym, route: seq<nat>, within: set<Sym>)
    requires t in g && Route(g, t, route)
    decreases |route|
  {
    route != [] ==>
      Next(g, t, route[0]).value in within && Through(g, Next(g, t, route[0]).value, route[1..], within)
  }

  lemma {:induction false} ThroughMore(g: Graph, t: Sym, route: seq<nat>, a: set<Sym>, b: set<Sym>)
    requires t in g && Route(g, t, route) && Through(g, t, route, a) && a <= b
    ensures Through(g, t, route, b)
    decreases |route|
  {
    hide Next;
    if route != [] { ThroughMore(g, Next(g, t, route[0]).value, route[1..], a, b); }
  }

  /** What a flattening newly visits it comes to along elements newly visited. */
  lemma {:induction false} FlattenTrace(g: Graph, s: Sym, src: Sym, i: nat, depth: nat, visited: set<Sym>, u: Sym)
    returns (route: seq<nat>)
    requires s in g && Short(g, s) && Terms(g, s) && On(g, s, src) && Resolved(g, visited)
    requires IsInterface(g, Some(src)) && i <= |g[src].shape.elems| && u in g && !g[u].shape.Named?
    requires u in Flatten(g, src, i, depth, visited).1 && u !in visited
    ensures route != [] && Route(g, src, route) && Last(g, src, route) == u
    ensures Through(g, src, route, Flatten(g, src, i, depth, visited).1 - visited)
    decreases g.Keys - visited, |g[src].shape.elems| - i
  {
    hide Chase, Ends, Short, Terms, On, Resolved, Next;
    var elems := g[src].shape.elems;
    var after := Flatten(g, src, i, depth, visited).1;
    if elems[i].Spec? {
      route := FlattenTrace(g, s, src, i + 1, depth, visited, u);
    } else {
      ElementMarks(g, s, src, i, visited);
      var c := Chase(g, elems[i].sym, visited, LAYERS);
      if !IsInterface(g, c.0) {
        route := FlattenTrace(g, s, src, i + 1, depth, c.1, u);
        ThroughMore(g, src, route, after - c.1, after - visited);
      } else {
        var t := c.0.value;
        var f := Flatten(g, t, 0, depth, c.1);
        assert Next(g, src, i) == Some(t) by { MarkedNext(g, s, src, i, visited); }
        if u == t {
          route := [i];
          assert [i][1..] == [];
        } else if u in f.1 {
          var rest := FlattenTrace(g, s, t, 0, depth, c.1, u);
          ThroughMore(g, t, rest, f.1 - c.1, after - visited);
          RouteCons(g, src, i, rest);
          route := [i] + rest;
          assert route[1..] == rest;
        } else {
          FlattenResolves(g, s, t, depth, c.1);
          route := FlattenTrace(g, s, src, i + 1, depth, f.1, u);
          ThroughMore(g, src, route, after - f.1, after - visited);
        }
      }
    }
  }

  lemma MarkedNext(g: Graph, s: Sym, src: Sym, i: nat, visited: set<Sym>)
    requires s in g && Short(g, s) && Terms(g, s) && On(g, s, src) && Resolved(g, visited)
    requires IsInterface(g, Some(src)) && i < |g[src].shape.elems| && g[src].shape.elems[i].Embedded?
    ensures var c := Chase(g, g[src].shape.elems[i].sym, visited, LAYERS); c.0.Some? ==> Next(g, src, i) == c.0
  {
    hide Chase, End, Ends, On, Resolved, ShortAt, Next;
    var x := g[src].shape.elems[i].sym;
    assert LiveAt(g, s, src, i) && Target(g, src, i) == x && Refers(g, src, i);
    ChaseResolves(g, x, visited);
    NextEnds(g, s, src, i);
  }

  lemma FlattenResolves(g: Graph, s: Sym, src: Sym, depth: nat, visited: set<Sym>)
    requires s in g && Short(g, s) && Terms(g, s) && On(g, s, src) && Resolved(g, visited) && IsInterface(g, Some(src))
    ensures Resolved(g, Flatten(g, src, 0, depth, visited).1)
  {
    hide Ends, Short, Terms, On, Resolved, Closes, Flatten;
    FlattenCloses(g, s, src, 0, depth, visited);
    ClosesResolved(g, s, src, 0, depth, visited, Flatten(g, src, 0, depth, visited));
  }

  // ---- Pushing ---------------------------------------------------------------------------------

  /** The places of the fields whose entries are pushed. */
  function Pushed(g: Graph, e: Entry, i: nat, visited: set<Sym>): seq<nat>
    requires e.sym in g && g[e.sym].shape.Struct? && i <= |g[e.sym].shape.fields|
    decreases |g[e.sym].shape.fields| - i
  {
    if i == |g[e.sym].shape.fields| then []
    else
      var c := Chase(g, g[e.sym].shape.fields[i].sym, visited, LAYERS);
      (if c.0.Some? then [i] else []) + Pushed(g, e, i + 1, c.1)
  }

  /** The entry pushed for place `k`. */
  predicate IsPush(g: Graph, e: Entry, k: nat, x: Entry)
    requires e.sym in g
  {
    Refers(g, e.sym, k) && Next(g, e.sym, k) == Some(x.sym)
      && x == Entry(x.sym, e.ptr || ByPtr(g, e.sym, k), e.depth + 1, false)
  }

  /** The entries pushed, by their places: new declarations, in order, and one at or before every
      place that comes down to something not visited before. */
  ghost predicate Pushes(g: Graph, e: Entry, i: nat, visited: set<Sym>, q: (seq<Entry>, set<Sym>), ks: seq<nat>)
    requires e.sym in g
  {
    && |ks| == |q.0| && visited <= q.1 && Resolved(g, q.1)
    && (forall j :: 0 <= j < |ks| ==>
      i <= ks[j] && IsPush(g, e, ks[j], q.0[j]) && q.0[j].sym in q.1 && q.0[j].sym !in visited)
    && (forall j, l :: 0 <= j < l < |ks| ==> ks[j] < ks[l] && q.0[j].sym != q.0[l].sym)
    && (forall u :: u in q.1 && u !in visited && u in g && !g[u].shape.Named? ==>
          exists j :: 0 <= j < |ks| && q.0[j].sym == u)
    && (forall k: nat :: i <= k && Refers(g, e.sym, k) && Next(g, e.sym, k).Some? ==>
          Next(g, e.sym, k).value in visited
          || exists j :: 0 <= j < |ks| && ks[j] <= k && q.0[j].sym == Next(g, e.sym, k).value)
  }

  /** One field: what its chase marks and finds. */
  lemma FieldMarks(g: Graph, s: Sym, t: Sym, i: nat, visited: set<Sym>)
    requires s in g && Short(g, s) && Terms(g, s) && On(g, s, t) && Resolved(g, visited)
    requires t in g && g[t].shape.Struct? && i < |g[t].shape.fields|
    ensures var c := Chase(g, g[t].shape.fields[i].sym, visited, LAYERS);
      && Resolved(g, c.1) && Refers(g, t, i) && (c.0.Some? ==> Next(g, t, i) == c.0)
      && (forall v :: v in c.1 && v !in visited && v in g && !g[v].shape.Named? ==> c.0 == Some(v))
      && (c.0.None? && Next(g, t, i).Some? ==> Next(g, t, i).value in visited)
  {
    hide Chase, End, Ends, On, Resolved, ShortAt, Next;
    var x := g[t].shape.fields[i].sym;
    assert LiveAt(g, s, t, i) && Target(g, t, i) == x && Refers(g, t, i);
    ChaseResolves(g, x, visited);
    NextEnds(g, s, t, i);
    var c := Chase(g, x, visited, LAYERS);
    forall v | v in c.1 && v !in visited && v in g && !g[v].shape.Named? ensures c.0 == Some(v) {
      ChaseFinds(g, x, visited, LAYERS, v);
    }
  }

  lemma PushesNone(g: Graph, e: Entry, visited: set<Sym>)
    requires e.sym in g && g[e.sym].shape.Struct? && Resolved(g, visited)
    ensures Pushes(g, e, |g[e.sym].shape.fields|, visited, ([], visited), [])
  {
    hide Ends, Resolved;
  }

  /** A field that leads to nothing new. */
  lemma PushesBlocked(g: Graph, e: Entry, i: nat, visited: set<Sym>, c: set<Sym>, q: (seq<Entry>, set<Sym>),
      ks: seq<nat>)
    requires e.sym in g && g[e.sym].shape.Struct? && i < |g[e.sym].shape.fields| && visited <= c
    requires forall v :: v in c && v !in visited && v in g ==> g[v].shape.Named?
    requires Next(g, e.sym, i).Some? ==> Next(g, e.sym, i).value in visited
    requires Pushes(g, e, i + 1, c, q, ks)
    ensures Pushes(g, e, i, visited, q, ks)
  {
    hide Resolved, IsPush, Refers;
    NextPlain(g, e.sym);
  }

  lemma NextPlain(g: Graph, t: Sym)
    requires t in g
    ensures forall k: nat :: Next(g, t, k).Some? ==> Next(g, t, k).value in g && !g[Next(g, t, k).value].shape.Named?
  {
    forall k: nat | Next(g, t, k).Some? ensures Next(g, t, k).value in g && !g[Next(g, t, k).value].shape.Named? {
      EndIsPlain(g, Target(g, t, k), LAYERS);
    }
  }

  /** A field whose declaration is pushed. */
  lemma PushesFound(g: Graph, e: Entry, i: nat, visited: set<Sym>, c: set<Sym>, x: Entry, q: (seq<Entry>, set<Sym>),
      ks: seq<nat>)
    requires e.sym in g && g[e.sym].shape.Struct? && i < |g[e.sym].shape.fields| && visited <= c
    requires IsPush(g, e, i, x) && x.sym in c && x.sym !in visited
    requires forall v :: v in c && v !in visited && v in g && !g[v].shape.Named? ==> v == x.sym
    requires Pushes(g, e, i + 1, c, q, ks)
    ensures Pushes(g, e, i, visited, ([x] + q.0, q.1), [i] + ks)
  {
    hide Resolved, IsPush, Refers, Next;
    NextPlain(g, e.sym);
    var es, ls := [x] + q.0, [i] + ks;
    assert forall j :: 0 < j < |ls| ==> ls[j] == ks[j - 1] && es[j] == q.0[j - 1];
    assert es[0] == x && ls[0] == i;
    forall u | u in q.1 && u !in visited && u in g && !g[u].shape.Named?
      ensures exists j :: 0 <= j < |ls| && es[j].sym == u
    {
      if u in c {
        assert es[0].sym == u;
      } else {
        var j :| 0 <= j < |ks| && q.0[j].sym == u;
        assert es[j + 1].sym == u;
      }
    }
    forall k: nat | i <= k && Refers(g, e.sym, k) && Next(g, e.sym, k).Some?
      ensures Next(g, e.sym, k).value in visited
        || exists j :: 0 <= j < |ls| && ls[j] <= k && es[j].sym == Next(g, e.sym, k).value
    {
      var u := Next(g, e.sym, k).value;
      if k == i {
        assert es[0].sym == u by { PushIs(g, e, i, x); }
      } else if u in c {
        if u !in visited { assert es[0].sym == u; }
      } else {
        var j :| 0 <= j < |ks| && ks[j] <= k && q.0[j].sym == u;
        assert ls[j + 1] <= k && es[j + 1].sym == u;
      }
    }
  }

  lemma PushIs(g: Graph, e: Entry, k: nat, x: Entry)
    requires e.sym in g && IsPush(g, e, k, x)
    ensures Next(g, e.sym, k) == Some(x.sym)
  {
    hide Next;
  }

  lemma {:induction false} PushCloses(g: Graph, s: Sym, e: Entry, i: nat, visited: set<Sym>)
    requires s in g && Short(g, s) && Terms(g, s) && On(g, s, e.sym) && Resolved(g, visited)
    requires e.sym in g && g[e.sym].shape.Struct? && i <= |g[e.sym].shape.fields|
    ensures Pushes(g, e, i, visited, Push(g, e, i, visited), Pushed(g, e, i, visited))
    decreases |g[e.sym].shape.fields| - i
  {
    hide Chase, Next, Ends, Short, Terms, On, Resolved, Pushes;
    var fields := g[e.sym].shape.fields;
    if i == |fields| {
      PushesNone(g, e, visited);
    } else {
      FieldMarks(g, s, e.sym, i, visited);
      var c := Chase(g, fields[i].sym, visited, LAYERS);
      PushCloses(g, s, e, i + 1, c.1);
      var q, ks := Push(g, e, i + 1, c.1), Pushed(g, e, i + 1, c.1);
      if c.0.None? {
        assert [] + ks == ks;
        PushesBlocked(g, e, i, visited, c.1, q, ks);
      } else {
        var x := Entry(c.0.value, e.ptr || fields[i].byPtr, e.depth + 1, false);
        PushesFound(g, e, i, visited, c.1, x, q, ks);
      }
    }
  }
}
