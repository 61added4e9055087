/** The queue of the walk: every declaration is entered on the first of the shortest ways to it,
    and nothing the rule provides is missed but for that. */
module MethodSetQueue {
  import opened Basics
  import opened MethodSet
  import opened MethodSetLaw
  import opened MethodSetCover

  // ---- Shorter first, then earlier fields first -------------------------------------------------

  predicate Lex(a: seq<nat>, b: seq<nat>)
    requires |a| == |b|
  {
    a != [] && (a[0] < b[0] || (a[0] == b[0] && Lex(a[1..], b[1..])))
  }

  predicate Before(a: seq<nat>, b: seq<nat>) {
    |a| < |b| || (|a| == |b| && Lex(a, b))
  }

  predicate NotAfter(a: seq<nat>, b: seq<nat>) { a == b || Before(a, b) }

  lemma {:induction false} LexTrans(a: seq<nat>, b: seq<nat>, c: seq<nat>)
    requires |a| == |b| == |c| && Lex(a, b) && Lex(b, c)
    ensures Lex(a, c)
  {
    if a[0] == b[0] && b[0] == c[0] { LexTrans(a[1..], b[1..], c[1..]); }
  }

  lemma {:induction false} LexNotSelf(a: seq<nat>)
    ensures !Lex(a, a)
  {
    if a != [] { LexNotSelf(a[1..]); }
  }

  lemma {:induction false} LexSnoc(a: seq<nat>, b: seq<nat>, j: nat, k: nat)
    requires |a| == |b|
    ensures Lex(a, b) ==> Lex(a + [j], b + [k])
    ensures a == b && j < k ==> Lex(a + [j], b + [k])
  {
    if a == [] {
      assert b == [] && a + [j] == [j] && b + [k] == [k];
    } else {
      assert (a + [j])[1..] == a[1..] + [j] && (b + [k])[1..] == b[1..] + [k];
      LexSnoc(a[1..], b[1..], j, k);
    }
  }

  lemma BeforeTrans(a: seq<nat>, b: seq<nat>, c: seq<nat>)
    requires NotAfter(a, b) && NotAfter(b, c)
    ensures NotAfter(a, c) && (Before(a, b) || Before(b, c) ==> Before(a, c))
  {
    if |a| == |b| == |c| && Lex(a, b) && Lex(b, c) { LexTrans(a, b, c); }
  }

  lemma BeforeSnoc(a: seq<nat>, b: seq<nat>, j: nat, k: nat)
    ensures Before(a, b) ==> Before(a + [j], b + [k])
    ensures j < k ==> Before(a + [j], a + [k])
    ensures NotAfter(a, b) ==> NotAfter(a + [k], b + [k])
    ensures j <= k ==> NotAfter(a + [j], a + [k])
  {
    if |a| == |b| { LexSnoc(a, b, j, k); LexSnoc(a, b, k, k); }
    LexSnoc(a, a, j, k);
  }

  lemma BeforeOneWay(a: seq<nat>, b: seq<nat>)
    ensures Before(a, b) ==> !NotAfter(b, a)
  {
    LexNotSelf(a);
    if |a| == |b| && Lex(a, b) && Lex(b, a) { LexTrans(a, b, a); }
  }

  // ---- Ways --------------------------------------------------------------------------------------

  /** A way from where the rule starts: which start, and the places passed. */
  ghost predicate Way(g: Graph, s: Sym, l: seq<nat>)
    requires s in g
  {
    l != [] && l[0] < |Starts(g, s)| && Route(g, Starts(g, s)[l[0]].sym, l[1..])
  }

  ghost function To(g: Graph, s: Sym, l: seq<nat>): (t: Sym)
    requires s in g && Way(g, s, l)
    ensures t in g
  {
    Last(g, Starts(g, s)[l[0]].sym, l[1..])
  }

  ghost function Deep(g: Graph, s: Sym, l: seq<nat>): nat
    requires s in g && Way(g, s, l)
  {
    Hops(g, Starts(g, s)[l[0]].sym, l[1..])
  }

  ghost predicate Crosses(g: Graph, s: Sym, l: seq<nat>)
    requires s in g && Way(g, s, l)
  {
    CrossesPtr(g, Starts(g, s)[l[0]].sym, l[1..])
  }

  lemma WaySnoc(g: Graph, s: Sym, l: seq<nat>, k: nat)
    requires s in g && l != []
    ensures Way(g, s, l + [k]) <==> Way(g, s, l) && Next(g, To(g, s, l), k).Some?
    ensures Way(g, s, l + [k]) ==>
      && To(g, s, l + [k]) == Next(g, To(g, s, l), k).value
      && Deep(g, s, l + [k]) == Deep(g, s, l) + (if g[To(g, s, l)].shape.Struct? then 1 else 0)
      && Crosses(g, s, l + [k]) == (Crosses(g, s, l) || ByPtr(g, To(g, s, l), k))
  {
    hide Starts, Next, ByPtr;
    assert (l + [k])[0] == l[0] && (l + [k])[1..] == l[1..] + [k];
    if l[0] < |Starts(g, s)| { RouteSnoc(g, Starts(g, s)[l[0]].sym, l[1..], k); }
  }

  lemma {:induction false} HopsAtMost(g: Graph, t: Sym, route: seq<nat>)
    requires t in g && Route(g, t, route)
    ensures Hops(g, t, route) <= |route|
    decreases |route|
  {
    if route != [] { HopsAtMost(g, Next(g, t, route[0]).value, route[1..]); }
  }

  lemma WayOn(g: Graph, s: Sym, l: seq<nat>)
    requires s in g && Way(g, s, l)
    ensures On(g, s, To(g, s, l))
  {
    assert Starts(g, s)[l[0]] in Starts(g, s);
  }

  lemma StartsTop(g: Graph, s: Sym)
    requires s in g
    ensures forall e :: e in Starts(g, s) ==> e.top && e.depth == 0 && !e.ptr
  {
  }

  // ---- The invariant -------------------------------------------------------------------------------

  /** The entry stands at the end of its way, over struct fields only. */
  ghost predicate Labeled(g: Graph, s: Sym, x: Entry, l: seq<nat>)
    requires s in g
  {
    && Way(g, s, l) && x.sym == To(g, s, l) && Deep(g, s, l) == |l| - 1
    && x == Entry(x.sym, Crosses(g, s, l), |l| - 1, |l| == 1)
  }

  ghost predicate AllLabeled(g: Graph, s: Sym, all: seq<Entry>, ls: seq<seq<nat>>)
    requires s in g
  {
    |ls| == |all| && forall i :: 0 <= i < |all| ==> Labeled(g, s, all[i], ls[i])
  }

  predicate Sorted(ls: seq<seq<nat>>) {
    forall i, j :: 0 <= i < j < |ls| ==> Before(ls[i], ls[j])
  }

  /** The first entries are where the rule starts; any other was pushed by one that is done. */
  ghost predicate Parents(g: Graph, s: Sym, all: seq<Entry>, ls: seq<seq<nat>>, m: nat)
    requires s in g && |ls| == |all|
  {
    && |Starts(g, s)| <= |all| && (forall i :: 0 <= i < |Starts(g, s)| ==> all[i] == Starts(g, s)[i] && ls[i] == [i])
    && forall i :: 0 <= i < |ls| && |ls[i]| > 1 ==>
      exists p :: 0 <= p < m && p < |ls| && ls[i] == ls[p] + [ls[i][|ls[i]| - 1]]
  }

  predicate Has(all: seq<Entry>, u: Sym) {
    exists i :: 0 <= i < |all| && all[i].sym == u
  }

  /** Whatever was visited has an entry, or was flattened. */
  ghost predicate Seen(g: Graph, all: seq<Entry>, visited: set<Sym>, flat: map<Sym, seq<nat>>) {
    && Resolved(g, visited)
    && forall u: Sym :: u in visited && u in g && !g[u].shape.Named? ==> Has(all, u) || u in flat
  }

  /** The way of the entry that pushed this one; none for those the rule starts at. */
  function Above(l: seq<nat>): seq<nat>
    requires l != []
  {
    l[..|l| - 1]
  }

  /** `u` was met before the field at place `k` of the entry at the end of `l` was read, or then:
      it has an entry on a way not after that field's, or was flattened in an earlier round. */
  ghost predicate Placed(all: seq<Entry>, ls: seq<seq<nat>>, flat: map<Sym, seq<nat>>, u: Sym, l: seq<nat>, k: nat)
    requires |all| == |ls|
  {
    || (exists j :: 0 <= j < |all| && all[j].sym == u && NotAfter(ls[j], l + [k]))
    || (u in flat && Before(flat[u], l))
  }

  /** `u` was met before the round at the end of `l` was over: it was flattened by then, or has an
      entry that an earlier round pushed. */
  ghost predicate OnTime(all: seq<Entry>, ls: seq<seq<nat>>, flat: map<Sym, seq<nat>>, u: Sym, l: seq<nat>)
    requires |all| == |ls|
  {
    || (exists j :: 0 <= j < |all| && all[j].sym == u && ls[j] != [] && Before(Above(ls[j]), l))
    || (u in flat && NotAfter(flat[u], l))
  }

  /** All elements of `t` were. */
  ghost predicate ElementsMet(g: Graph, t: Sym, all: seq<Entry>, ls: seq<seq<nat>>, flat: map<Sym, seq<nat>>,
      l: seq<nat>)
    requires t in g && |all| == |ls|
  {
    forall k: nat, w: Sym :: Refers(g, t, k) && Ends(g, Target(g, t, k), w) ==> OnTime(all, ls, flat, w, l)
  }

  /** What the round at the end of `l` flattened. */
  function Flats(flat: map<Sym, seq<nat>>, l: seq<nat>): set<Sym> {
    set u | u in flat && flat[u] == l
  }

  /** The interface was flattened in a round that is done, along elements flattened in that round. */
  ghost predicate Rooted(g: Graph, all: seq<Entry>, ls: seq<seq<nat>>, m: nat, flat: map<Sym, seq<nat>>, u: Sym)
    requires m <= |all| == |ls| && u in flat
  {
    exists i: nat, route: seq<nat> :: i < m && ls[i] == flat[u] && IsInterface(g, Some(all[i].sym)) && route != []
      && Route(g, all[i].sym, route) && Last(g, all[i].sym, route) == u
      && Through(g, all[i].sym, route, Flats(flat, ls[i]))
  }

  /** The interface flattened in the round at the end of `l`: its specs are listed at that depth and
      its elements were met. */
  ghost predicate Spread(g: Graph, all: seq<Entry>, ls: seq<seq<nat>>, flat: map<Sym, seq<nat>>, out: seq<Arrival>,
      u: Sym)
    requires |all| == |ls| && u in flat
  {
    && flat[u] != [] && u in g && g[u].shape.Interface? && Listed(g, u, 0, |flat[u]| - 1, out)
    && ElementsMet(g, u, all, ls, flat, flat[u])
  }

  ghost predicate FlatOk(g: Graph, all: seq<Entry>, ls: seq<seq<nat>>, m: nat, flat: map<Sym, seq<nat>>,
      out: seq<Arrival>)
  {
    m <= |all| == |ls| && forall u: Sym :: u in flat ==>
      Spread(g, all, ls, flat, out, u) && Rooted(g, all, ls, m, flat, u)
  }

  /** What a finished entry leaves behind. */
  ghost predicate Finished(g: Graph, all: seq<Entry>, ls: seq<seq<nat>>, i: nat, flat: map<Sym, seq<nat>>,
      out: seq<Arrival>)
    requires i < |all| == |ls| && all[i].sym in g
  {
    var x := all[i];
    match g[x.sym].shape
    case Interface(_) => Listed(g, x.sym, 0, x.depth, out) && ElementsMet(g, x.sym, all, ls, flat, ls[i])
    case Struct(_) =>
      && (forall a :: a in Methods(g[x.sym].methods, x) ==> a in out)
      && forall k: nat :: Refers(g, x.sym, k) && Next(g, x.sym, k).Some? ==>
        Placed(all, ls, flat, Next(g, x.sym, k).value, ls[i], k)
    case _ => forall a :: a in Methods(g[x.sym].methods, x) ==> a in out
  }

  ghost predicate AllFinished(g: Graph, all: seq<Entry>, ls: seq<seq<nat>>, m: nat, flat: map<Sym, seq<nat>>,
      out: seq<Arrival>)
  {
    |all| == |ls| && m <= |all| && forall i: nat :: i < m ==> all[i].sym in g && Finished(g, all, ls, i, flat, out)
  }

  /** A declaration has one entry, or was flattened once; those the rule starts at come on top. */
  predicate Distinct(all: seq<Entry>, visited: set<Sym>, flat: map<Sym, seq<nat>>) {
    && (forall i :: 0 <= i < |all| && !all[i].top ==> all[i].sym in visited && all[i].sym !in flat)
    && (forall i, j :: 0 <= i < j < |all| && !all[i].top && !all[j].top ==> all[i].sym != all[j].sym)
    && flat.Keys <= visited
  }

  /** A spec of an interface that is done, at its depth, or a method met at an entry that is done. */
  ghost predicate From(g: Graph, all: seq<Entry>, m: nat, flat: map<Sym, seq<nat>>, a: Arrival)
    requires m <= |all|
  {
    && a.src in g
    && if g[a.src].shape.Interface? then Specifies(g, a.src, a.name) &&
         ((exists i :: 0 <= i < m && all[i].sym == a.src && all[i].depth == a.depth)
          || (a.src in flat && a.depth == |flat[a.src]| - 1))
       else exists i :: 0 <= i < m && all[i].sym == a.src && a in Methods(g[a.src].methods, all[i])
  }

  ghost predicate Traced(g: Graph, all: seq<Entry>, m: nat, flat: map<Sym, seq<nat>>, out: seq<Arrival>)
    requires m <= |all|
  {
    forall a :: a in out ==> From(g, all, m, flat, a)
  }

  /** How far the walk has come: all entries so far and the ways to them, how many are done, what
      was visited, the elements flattened and in which rounds, and the arrivals. */
  datatype Board = Board(all: seq<Entry>, ls: seq<seq<nat>>, m: nat, visited: set<Sym>, flat: map<Sym, seq<nat>>,
    out: seq<Arrival>)

  ghost predicate Inv(g: Graph, s: Sym, b: Board)
    requires s in g
  {
    && AllLabeled(g, s, b.all, b.ls) && Sorted(b.ls) && b.m <= |b.all| && Parents(g, s, b.all, b.ls, b.m)
    && Seen(g, b.all, b.visited, b.flat) && FlatOk(g, b.all, b.ls, b.m, b.flat, b.out)
    && AllFinished(g, b.all, b.ls, b.m, b.flat, b.out)
    && Distinct(b.all, b.visited, b.flat) && Traced(g, b.all, b.m, b.flat, b.out)
  }

  /** The conditions under which the walk is compared with the rule: short spellings, and no
      constraint terms. */
  ghost predicate Regular(g: Graph, s: Sym)
    requires s in g
  {
    Short(g, s) && Terms(g, s)
  }

  // ---- What a round keeps ----------------------------------------------------------------------------

  lemma NextRefers(g: Graph, t: Sym, k: nat)
    requires t in g && Next(g, t, k).Some?
    ensures Refers(g, t, k) && !g[t].shape.Named?
  {
  }

  /** More entries, more flattened, more arrivals. */
  ghost predicate Grown(all: seq<Entry>, ls: seq<seq<nat>>, flat: map<Sym, seq<nat>>, out: seq<Arrival>,
      all': seq<Entry>, ls': seq<seq<nat>>, flat': map<Sym, seq<nat>>, out': seq<Arrival>)
  {
    && |all| == |ls| && |all'| == |ls'| && all <= all' && ls <= ls'
    && (forall u: Sym :: u in flat ==> u in flat' && flat'[u] == flat[u]) && forall a :: a in out ==> a in out'
  }

  lemma OnTimeMore(all: seq<Entry>, ls: seq<seq<nat>>, flat: map<Sym, seq<nat>>, out: seq<Arrival>,
      all': seq<Entry>, ls': seq<seq<nat>>, flat': map<Sym, seq<nat>>, out': seq<Arrival>, u: Sym, l: seq<nat>)
    requires Grown(all, ls, flat, out, all', ls', flat', out') && OnTime(all, ls, flat, u, l)
    ensures OnTime(all', ls', flat', u, l)
  {
    hide Before, NotAfter;
    if j :| 0 <= j < |all| && all[j].sym == u && ls[j] != [] && Before(Above(ls[j]), l) {
      assert all'[j] == all[j] && ls'[j] == ls[j];
    }
  }

  lemma PlacedMore(all: seq<Entry>, ls: seq<seq<nat>>, flat: map<Sym, seq<nat>>, out: seq<Arrival>,
      all': seq<Entry>, ls': seq<seq<nat>>, flat': map<Sym, seq<nat>>, out': seq<Arrival>, u: Sym, l: seq<nat>, k: nat)
    requires Grown(all, ls, flat, out, all', ls', flat', out') && Placed(all, ls, flat, u, l, k)
    ensures Placed(all', ls', flat', u, l, k)
  {
    hide Before, NotAfter;
    if j :| 0 <= j < |all| && all[j].sym == u && NotAfter(ls[j], l + [k]) {
      assert all'[j] == all[j] && ls'[j] == ls[j];
    }
  }

  lemma ElementsMore(g: Graph, t: Sym, all: seq<Entry>, ls: seq<seq<nat>>, flat: map<Sym, seq<nat>>, out: seq<Arrival>,
      all': seq<Entry>, ls': seq<seq<nat>>, flat': map<Sym, seq<nat>>, out': seq<Arrival>, l: seq<nat>)
    requires Grown(all, ls, flat, out, all', ls', flat', out') && t in g && ElementsMet(g, t, all, ls, flat, l)
    ensures ElementsMet(g, t, all', ls', flat', l)
  {
    hide Ends, Refers, Grown, OnTime;
    assert |all'| == |ls'| by { GrownLong(all, ls, flat, out, all', ls', flat', out'); }
    forall k: nat, w: Sym | Refers(g, t, k) && Ends(g, Target(g, t, k), w) ensures OnTime(all', ls', flat', w, l) {
      OnTimeMore(all, ls, flat, out, all', ls', flat', out', w, l);
    }
  }

  lemma GrownLong(all: seq<Entry>, ls: seq<seq<nat>>, flat: map<Sym, seq<nat>>, out: seq<Arrival>,
      all': seq<Entry>, ls': seq<seq<nat>>, flat': map<Sym, seq<nat>>, out': seq<Arrival>)
    requires Grown(all, ls, flat, out, all', ls', flat', out')
    ensures |all| == |ls| && |all'| == |ls'| && all <= all' && ls <= ls'
    ensures forall i: nat :: i < |all| ==> all'[i] == all[i] && ls'[i] == ls[i]
  {
  }

  lemma ListedMore(g: Graph, t: Sym, depth: nat, out: seq<Arrival>, out': seq<Arrival>)
    requires t in g && g[t].shape.Interface? && Listed(g, t, 0, depth, out) && forall a :: a in out ==> a in out'
    ensures Listed(g, t, 0, depth, out')
  {
  }

  lemma FinishedMore(g: Graph, all: seq<Entry>, ls: seq<seq<nat>>, i: nat, flat: map<Sym, seq<nat>>, out: seq<Arrival>,
      all': seq<Entry>, ls': seq<seq<nat>>, flat': map<Sym, seq<nat>>, out': seq<Arrival>)
    requires Grown(all, ls, flat, out, all', ls', flat', out')
    requires i < |all| == |ls| && all[i].sym in g && Finished(g, all, ls, i, flat, out)
    ensures i < |all'| == |ls'| && all'[i].sym in g && Finished(g, all', ls', i, flat', out')
  {
    hide Next, Refers, Methods, Listed, ElementsMet, Placed, NotAfter;
    GrownLong(all, ls, flat, out, all', ls', flat', out');
    var x := all[i];
    match g[x.sym].shape
    case Interface(_) =>
      ListedMore(g, x.sym, x.depth, out, out');
      ElementsMore(g, x.sym, all, ls, flat, out, all', ls', flat', out', ls[i]);
    case Struct(_) =>
      forall k: nat | Refers(g, x.sym, k) && Next(g, x.sym, k).Some?
        ensures Placed(all', ls', flat', Next(g, x.sym, k).value, ls[i], k)
      {
        PlacedMore(all, ls, flat, out, all', ls', flat', out', Next(g, x.sym, k).value, ls[i], k);
      }
    case _ =>
  }

  lemma AllFinishedMore(g: Graph, all: seq<Entry>, ls: seq<seq<nat>>, m: nat, flat: map<Sym, seq<nat>>,
      out: seq<Arrival>, all': seq<Entry>, ls': seq<seq<nat>>, flat': map<Sym, seq<nat>>, out': seq<Arrival>)
    requires Grown(all, ls, flat, out, all', ls', flat', out') && AllFinished(g, all, ls, m, flat, out)
    ensures AllFinished(g, all', ls', m, flat', out')
  {
    hide Finished, Grown;
    GrownLong(all, ls, flat, out, all', ls', flat', out');
    forall i: nat | i < m ensures all'[i].sym in g && Finished(g, all', ls', i, flat', out') {
      FinishedMore(g, all, ls, i, flat, out, all', ls', flat', out');
    }
  }

  lemma SpreadMore(g: Graph, all: seq<Entry>, ls: seq<seq<nat>>, flat: map<Sym, seq<nat>>, out: seq<Arrival>,
      all': seq<Entry>, ls': seq<seq<nat>>, flat': map<Sym, seq<nat>>, out': seq<Arrival>, u: Sym)
    requires Grown(all, ls, flat, out, all', ls', flat', out')
    requires |all| == |ls| && u in flat && Spread(g, all, ls, flat, out, u)
    ensures |all'| == |ls'| && u in flat' && Spread(g, all', ls', flat', out', u)
  {
    hide Listed, ElementsMet;
    ListedMore(g, u, |flat[u]| - 1, out, out');
    ElementsMore(g, u, all, ls, flat, out, all', ls', flat', out', flat[u]);
  }

  lemma RootedMore(g: Graph, all: seq<Entry>, ls: seq<seq<nat>>, m: nat, flat: map<Sym, seq<nat>>, out: seq<Arrival>,
      all': seq<Entry>, ls': seq<seq<nat>>, m': nat, flat': map<Sym, seq<nat>>, out': seq<Arrival>, u: Sym)
    requires Grown(all, ls, flat, out, all', ls', flat', out')
    requires m <= |all| && m <= m' <= |all'| && |all| == |ls| && u in flat && Rooted(g, all, ls, m, flat, u)
    ensures |all'| == |ls'| && u in flat' && Rooted(g, all', ls', m', flat', u)
  {
    hide Route, Last, Through;
    var i: nat, route: seq<nat> :| i < m && ls[i] == flat[u] && IsInterface(g, Some(all[i].sym)) && route != []
      && Route(g, all[i].sym, route) && Last(g, all[i].sym, route) == u
      && Through(g, all[i].sym, route, Flats(flat, ls[i]));
    assert all'[i] == all[i] && ls'[i] == ls[i];
    ThroughMore(g, all[i].sym, route, Flats(flat, ls[i]), Flats(flat', ls[i]));
  }

  lemma FlatOkMore(g: Graph, all: seq<Entry>, ls: seq<seq<nat>>, m: nat, flat: map<Sym, seq<nat>>, out: seq<Arrival>,
      all': seq<Entry>, ls': seq<seq<nat>>, m': nat, flat': map<Sym, seq<nat>>, out': seq<Arrival>, u: Sym)
    requires Grown(all, ls, flat, out, all', ls', flat', out')
    requires FlatOk(g, all, ls, m, flat, out) && m <= m' <= |all'| && u in flat
    ensures |all'| == |ls'| && u in flat' && Spread(g, all', ls', flat', out', u) && Rooted(g, all', ls', m', flat', u)
  {
    hide Spread, Rooted, Grown;
    SpreadMore(g, all, ls, flat, out, all', ls', flat', out', u);
    RootedMore(g, all, ls, m, flat, out, all', ls', m', flat', out', u);
  }
}
