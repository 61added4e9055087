/** Which embeddings are safe whatever methods and specs are declared: exactly those without a hidden
    declaration and a deferred element. */
module MethodSetTables {
  import opened Basics
  import opened MethodSet
  import opened MethodSetLaw
  import opened MethodSetCover
  import opened MethodSetQueue
  import opened MethodSetSchedule
  import opened MethodSetExact

  function EmbedAt(elems: seq<Elem>, k: nat): Option<Sym> {
    if k < |elems| && elems[k].Embedded? then Some(elems[k].sym) else None
  }

  ghost predicate SamePlaces(a: Shape, b: Shape) {
    if a.Interface? && b.Interface? then forall k: nat :: EmbedAt(a.elems, k) == EmbedAt(b.elems, k) else a == b
  }

  /** The same embeddings with other methods and other specs. */
  ghost predicate SameEmbeds(g: Graph, h: Graph) {
    g.Keys == h.Keys && forall t :: t in g ==> SamePlaces(g[t].shape, h[t].shape)
  }

  // ---- What depends on the embeddings alone ---------------------------------------------------------

  lemma SameBack(g: Graph, h: Graph)
    requires SameEmbeds(g, h)
    ensures SameEmbeds(h, g)
  {
    hide EmbedAt;
  }

  lemma KindSame(g: Graph, h: Graph, t: Sym)
    requires SameEmbeds(g, h) && t in g
    ensures t in h && (g[t].shape.Interface? <==> h[t].shape.Interface?) && (g[t].shape.Struct? <==> h[t].shape.Struct?)
    ensures !g[t].shape.Interface? ==> g[t].shape == h[t].shape
  {
  }

  lemma {:induction false} EndSame(g: Graph, h: Graph, x: Sym, n: nat)
    requires SameEmbeds(g, h)
    ensures End(g, x, n) == End(h, x, n)
    decreases n
  {
    if n > 0 && x in g {
      KindSame(g, h, x);
      if g[x].shape.Named? { EndSame(g, h, g[x].shape.next, n - 1); }
    }
  }

  lemma EndsSame(g: Graph, h: Graph, x: Sym, u: Sym)
    requires SameEmbeds(g, h)
    ensures Ends(g, x, u) <==> Ends(h, x, u)
  {
    hide SameEmbeds;
    if n: nat :| End(g, x, n) == Some(u) { EndSame(g, h, x, n); }
    if n: nat :| End(h, x, n) == Some(u) { EndSame(g, h, x, n); }
  }

  lemma RefersSame(g: Graph, h: Graph, t: Sym, k: nat)
    requires SameEmbeds(g, h)
    ensures Refers(g, t, k) <==> Refers(h, t, k)
    ensures Refers(g, t, k) ==> Target(g, t, k) == Target(h, t, k) && ByPtr(g, t, k) == ByPtr(h, t, k)
  {
    if t in g && g[t].shape.Interface? && h[t].shape.Interface? {
      assert EmbedAt(g[t].shape.elems, k) == EmbedAt(h[t].shape.elems, k);
    }
  }

  lemma NextSame(g: Graph, h: Graph, t: Sym, k: nat)
    requires SameEmbeds(g, h) && t in g
    ensures Next(g, t, k) == Next(h, t, k)
  {
    hide End, SameEmbeds, Refers, Target;
    KindSame(g, h, t);
    RefersSame(g, h, t, k);
    if Refers(g, t, k) {
      EndSame(g, h, Target(g, t, k), LAYERS);
      var e := End(g, Target(g, t, k), LAYERS);
      if e.Some? { KindSame(g, h, e.value); }
    }
  }

  lemma {:induction false} RouteSame(g: Graph, h: Graph, t: Sym, route: seq<nat>)
    requires SameEmbeds(g, h) && t in g
    ensures t in h && (Route(g, t, route) <==> Route(h, t, route))
    ensures Route(g, t, route) ==>
      && Last(g, t, route) == Last(h, t, route) && Hops(g, t, route) == Hops(h, t, route)
      && CrossesPtr(g, t, route) == CrossesPtr(h, t, route)
    decreases |route|
  {
    hide Next, Refers, ByPtr, SameEmbeds;
    KindSame(g, h, t);
    if route != [] {
      NextSame(g, h, t, route[0]);
      if Next(g, t, route[0]).Some? {
        NextRefers(g, t, route[0]);
        RefersSame(g, h, t, route[0]);
        RouteSame(g, h, Next(g, t, route[0]).value, route[1..]);
      }
    }
  }

  lemma {:induction false} ThroughSame(g: Graph, h: Graph, t: Sym, route: seq<nat>, within: set<Sym>)
    requires SameEmbeds(g, h) && t in g && Route(g, t, route) && Through(g, t, route, within)
    ensures t in h && Route(h, t, route) && Through(h, t, route, within)
    decreases |route|
  {
    hide Next, SameEmbeds;
    RouteSame(g, h, t, route);
    if route != [] {
      NextSame(g, h, t, route[0]);
      ThroughSame(g, h, Next(g, t, route[0]).value, route[1..], within);
    }
  }

  lemma StartsSame(g: Graph, h: Graph, s: Sym)
    requires SameEmbeds(g, h) && s in g
    ensures s in h && Starts(g, s) == Starts(h, s)
  {
    hide End, SameEmbeds;
    KindSame(g, h, s);
    if g[s].shape.Named? { EndSame(g, h, g[s].shape.next, LAYERS); }
  }

  lemma WaySame(g: Graph, h: Graph, s: Sym, l: seq<nat>)
    requires SameEmbeds(g, h) && s in g
    ensures s in h && (Way(g, s, l) <==> Way(h, s, l))
    ensures Way(g, s, l) ==>
      To(g, s, l) == To(h, s, l) && Deep(g, s, l) == Deep(h, s, l) && Crosses(g, s, l) == Crosses(h, s, l)
  {
    hide Starts, SameEmbeds, Route, Last, Hops, CrossesPtr;
    StartsSame(g, h, s);
    if l != [] && l[0] < |Starts(g, s)| { RouteSame(g, h, Starts(g, s)[l[0]].sym, l[1..]); }
  }

  lemma StartedSame(g: Graph, h: Graph, s: Sym, t: Sym)
    requires SameEmbeds(g, h) && s in g
    ensures s in h && (Started(g, s, t) <==> Started(h, s, t))
  {
    hide SameEmbeds, Starts;
    StartsSame(g, h, s);
  }

  lemma OnSame(g: Graph, h: Graph, s: Sym, t: Sym)
    requires SameEmbeds(g, h) && s in g && On(g, s, t)
    ensures s in h && On(h, s, t)
  {
    hide Starts, Route, Last, Hops, CrossesPtr, SameEmbeds;
    StartsSame(g, h, s);
    var e, route :| e in Starts(g, s) && Route(g, e.sym, route) && Last(g, e.sym, route) == t;
    RouteSame(g, h, e.sym, route);
  }

  lemma LiveSame(g: Graph, h: Graph, s: Sym, t: Sym, k: nat)
    requires SameEmbeds(g, h) && s in g && LiveAt(g, s, t, k)
    ensures s in h && LiveAt(h, s, t, k) && Target(h, t, k) == Target(g, t, k)
    ensures t in g && t in h && (g[t].shape.Interface? <==> h[t].shape.Interface?)
  {
    hide On, SameEmbeds;
    OnSame(g, h, s, t);
    RefersSame(g, h, t, k);
    KindSame(g, h, t);
  }

  lemma ShortAtSame(g: Graph, h: Graph, x: Sym)
    requires SameEmbeds(g, h) && ShortAt(g, x)
    ensures ShortAt(h, x)
  {
    hide End, SameEmbeds;
    forall u: Sym | Ends(h, x, u) ensures End(h, x, LAYERS) == Some(u) {
      EndsSame(g, h, x, u);
      EndSame(g, h, x, LAYERS);
    }
  }

  lemma ShortSame(g: Graph, h: Graph, s: Sym)
    requires SameEmbeds(g, h) && s in g && Short(g, s)
    ensures s in h && Short(h, s)
  {
    hide On, ShortAt, SameEmbeds, Target;
    SameBack(g, h);
    KindSame(g, h, s);
    forall t: Sym, k: nat | LiveAt(h, s, t, k) ensures ShortAt(h, Target(h, t, k)) {
      LiveSame(h, g, s, t, k);
      ShortAtSame(g, h, Target(g, t, k));
    }
    if g[s].shape.Named? { ShortAtSame(g, h, g[s].shape.next); }
  }

  lemma TermsSame(g: Graph, h: Graph, s: Sym)
    requires SameEmbeds(g, h) && s in g && Terms(g, s)
    ensures s in h && Terms(h, s)
  {
    hide On, Ends, SameEmbeds, Target;
    SameBack(g, h);
    KindSame(g, h, s);
    forall t: Sym, k: nat, u: Sym | LiveAt(h, s, t, k) && h[t].shape.Interface? && Ends(h, Target(h, t, k), u)
      ensures u in h && h[u].shape.Interface?
    {
      LiveSame(h, g, s, t, k);
      EndsSame(h, g, Target(h, t, k), u);
      EndsPlain(g, Target(g, t, k), u);
      KindSame(g, h, u);
    }
  }

  lemma RegularSame(g: Graph, h: Graph, s: Sym)
    requires SameEmbeds(g, h) && s in g && Regular(g, s)
    ensures s in h && Regular(h, s)
  {
    hide Short, Terms, SameEmbeds;
    ShortSame(g, h, s);
    TermsSame(g, h, s);
  }

  lemma HiddenSame(g: Graph, h: Graph, s: Sym, t: Sym)
    requires SameEmbeds(g, h) && s in g && Hidden(g, s, t)
    ensures s in h && Hidden(h, s, t)
  {
    hide Way, To, Deep, Crosses, NotAfter, Started, SameEmbeds;
    StartedSame(g, h, s, t);
    KindSame(g, h, t);
    var l: seq<nat> :| First(g, s, l) && To(g, s, l) == t && !Crosses(g, s, l);
    var w: seq<nat> :| Way(g, s, w) && To(g, s, w) == t && Crosses(g, s, w);
    WaySame(g, h, s, l);
    WaySame(g, h, s, w);
    forall v: seq<nat> | Way(h, s, v) && To(h, s, v) == To(h, s, l) ensures NotAfter(l, v) { WaySame(g, h, s, v); }
  }

  // ---- The timetable -------------------------------------------------------------------------------------

  lemma OwnSame(g: Graph, h: Graph, s: Sym, at: Timetable, u: Sym)
    requires SameEmbeds(g, h) && s in g
    ensures s in h && (OwnRound(g, s, at, u) <==> OwnRound(h, s, at, u))
  {
    hide Way, To, Deep, Crosses, SameEmbeds;
    if u in at { WaySame(g, h, s, at[u]); }
    StartsSame(g, h, s);
  }

  lemma TimelySame(g: Graph, h: Graph, s: Sym, at: Timetable, t: Sym, k: nat)
    requires SameEmbeds(g, h) && s in g && s in h && t in g && t in at && Next(g, t, k).Some?
    requires Next(g, t, k).value in at && Timely(g, s, at, t, k)
    ensures t in h && Next(h, t, k) == Next(g, t, k) && Timely(h, s, at, t, k)
  {
    hide OwnRound, SameEmbeds, Next, Before;
    NextSame(g, h, t, k);
    KindSame(g, h, t);
    OwnSame(g, h, s, at, Next(g, t, k).value);
  }

  lemma GroundedSame(g: Graph, h: Graph, s: Sym, at: Timetable, u: Sym)
    requires SameEmbeds(g, h) && s in g && s in h && u in at && Grounded(g, s, at, u)
    ensures Grounded(h, s, at, u)
  {
    hide OwnRound, SameEmbeds, Next, Way, To, Deep, Crosses, Route, Last, Through;
    WaySame(g, h, s, at[u]);
    if FieldOf(g, s, at, u) {
      WaySame(g, h, s, Above(at[u]));
      OwnSame(g, h, s, at, u);
      var t := To(g, s, Above(at[u]));
      KindSame(g, h, t);
      NextSame(g, h, t, at[u][|at[u]| - 1]);
      assert FieldOf(h, s, at, u);
    } else {
      var route: seq<nat> :| FlatUnder(g, s, at, u, route);
      var i := To(g, s, at[u]);
      KindSame(g, h, i);
      RouteSame(g, h, i, route);
      ThroughSame(g, h, i, route, ReadIn(at, at[u]));
      assert FlatUnder(h, s, at, u, route);
    }
  }

  lemma ScheduleSame(g: Graph, h: Graph, s: Sym, at: Timetable)
    requires SameEmbeds(g, h) && s in g && Schedule(g, s, at)
    ensures s in h && Schedule(h, s, at)
  {
    hide SameEmbeds, Next, Way, To, Deep, Crosses, Timely, Grounded, Started, Starts;
    StartsSame(g, h, s);
    assert OnWays(h, s, at) by {
      forall t: Sym | t in at
        ensures t in h && at[t] != [] && Way(h, s, at[t]) && Deep(h, s, at[t]) == |at[t]| - 1
      {
        WaySame(g, h, s, at[t]);
        KindSame(g, h, t);
      }
    }
    assert AllTimely(h, s, at) by {
      forall t: Sym, k: nat | t in at && t in h && Next(h, t, k).Some?
        ensures Next(h, t, k).value in at && Timely(h, s, at, t, k)
      {
        NextSame(g, h, t, k);
        TimelySame(g, h, s, at, t, k);
      }
    }
    assert AllGrounded(h, s, at) by {
      forall u: Sym | u in at && !Started(h, s, u) ensures Grounded(h, s, at, u) {
        StartedSame(g, h, s, u);
        GroundedSame(g, h, s, at, u);
      }
    }
  }

  lemma DeferredSame(g: Graph, h: Graph, at: Timetable, t: Sym, k: nat)
    requires SameEmbeds(g, h)
    ensures DeferredAt(g, at, t, k) <==> DeferredAt(h, at, t, k)
  {
    hide SameEmbeds, Next;
    if t in g {
      KindSame(g, h, t);
      NextSame(g, h, t, k);
    }
    if t in h {
      SameBack(g, h);
      KindSame(h, g, t);
    }
  }

  // ---- A table that shows it -------------------------------------------------------------------------

  /** An interface whose specs are all of one other name, but for `name` behind them. */
  function OnlySpec(elems: seq<Elem>, name: string, listed: bool): (r: seq<Elem>)
    ensures forall k: nat :: EmbedAt(r, k) == EmbedAt(elems, k)
    ensures Spec(name) in r <==> listed
  {
    var other := seq(|elems|, i requires 0 <= i < |elems| => if elems[i].Spec? then Spec(name + "_") else elems[i]);
    assert |name + "_"| != |name|;
    if listed then
      assert (other + [Spec(name)])[|elems|] == Spec(name);
      other + [Spec(name)]
    else other
  }

  /** Nothing declares the name but `t`, and the interfaces of `us` that list it. */
  function Only(g: Graph, t: Sym, ptrRecv: bool, us: set<Sym>, name: string): (h: Graph)
    ensures SameEmbeds(g, h)
  {
    map u | u in g :: Decl(
      if g[u].shape.Interface? then Interface(OnlySpec(g[u].shape.elems, name, u in us)) else g[u].shape,
      if u == t then [Method(name, ptrRecv)] else [])
  }

  lemma OnlyDeclares(g: Graph, t: Sym, ptrRecv: bool, us: set<Sym>, name: string, u: Sym)
    requires u in g
    ensures var h := Only(g, t, ptrRecv, us, name);
      && (Specifies(h, u, name) <==> g[u].shape.Interface? && u in us)
      && (forall any: bool :: DeclaresMethod(h, u, name, any) <==>
            !g[u].shape.Interface? && u == t && (any || !ptrRecv))
  {
    hide OnlySpec, SameEmbeds;
    var h := Only(g, t, ptrRecv, us, name);
    if u == t { assert Method(name, ptrRecv) in h[u].methods; }
  }

  /** Of what the rule provides under a name from one declaration, something stands alone. */
  lemma {:induction false} Shallowest(g: Graph, s: Sym, a: Arrival) returns (b: Arrival)
    requires s in g && Reaches(g, s, a) && forall c :: Reaches(g, s, c) && c.name == a.name ==> c.src == a.src
    ensures InRule(g, s, b) && b.name == a.name && b.src == a.src
    decreases a.depth
  {
    hide Reaches;
    if c :| Reaches(g, s, c) && c.name == a.name && c.depth <= a.depth && c != a {
      b := Shallowest(g, s, c);
    } else {
      b := a;
    }
  }

  lemma OnlyFrom(g: Graph, s: Sym, t: Sym, ptrRecv: bool, us: set<Sym>, name: string, a: Arrival)
    requires s in g && s in Only(g, t, ptrRecv, us, name) && Reaches(Only(g, t, ptrRecv, us, name), s, a)
    requires a.name == name
    ensures a.src == t || a.src in us
  {
    hide Way, To, Deep, Crosses, Reaches, Specifies, DeclaresMethod, Only, SameEmbeds;
    var h := Only(g, t, ptrRecv, us, name);
    var l := ReachWay(h, s, a);
    assert a.src in g by { SameBack(g, h); KindSame(h, g, a.src); }
    OnlyDeclares(g, t, ptrRecv, us, name, a.src);
  }

  /** The code has the name from that declaration, at some depth. */
  ghost predicate Finds(g: Graph, s: Sym, name: string, src: Sym)
    requires s in g
  {
    exists d: nat :: InMethodSet(g, s, Arrival(name, d, src))
  }

  /** The rule gives the name from that declaration. */
  ghost predicate Gives(g: Graph, s: Sym, name: string, src: Sym)
    requires s in g
  {
    exists d: nat :: InRule(g, s, Arrival(name, d, src))
  }

  /** A hidden declaration's one method by pointer is in the rule's set and not in the code's. */
  lemma HiddenMisses(g: Graph, s: Sym, at: Timetable, t: Sym, name: string)
    requires s in g && Regular(g, s) && Schedule(g, s, at) && Hidden(g, s, t)
    ensures var h := Only(g, t, true, {}, name); s in h && Gives(h, s, name, t) && !Finds(h, s, name, t)
  {
    hide Regular, Schedule, SameEmbeds, Only, Reaches, Way, To, Deep, Crosses, InMethodSet, First, Started, InRule;
    var h := Only(g, t, true, {}, name);
    RegularSame(g, h, s);
    ScheduleSame(g, h, s, at);
    HiddenSame(g, h, s, t);
    KindSame(g, h, t);
    OnlyDeclares(g, t, true, {}, name, t);
    HiddenReaches(h, s, t, name);
    var c: Arrival :| Reaches(h, s, c) && c.name == name && c.src == t;
    forall d | Reaches(h, s, d) && d.name == name ensures d.src == t { OnlyFrom(g, s, t, true, {}, name, d); }
    var a := Shallowest(h, s, c);
    assert a == Arrival(name, a.depth, t);
    forall d: nat ensures !InMethodSet(h, s, Arrival(name, d, t)) {
      MetIff(h, s, at, Arrival(name, d, t));
      HiddenUnrecorded(h, s, at, t, name, d);
    }
  }

  lemma HiddenReaches(h: Graph, s: Sym, t: Sym, name: string)
    requires s in h && Hidden(h, s, t) && DeclaresMethod(h, t, name, true)
    ensures exists c: Arrival :: Reaches(h, s, c) && c.name == name && c.src == t
  {
    hide Way, To, Deep, Crosses, First, Started, Reaches, DeclaresMethod;
    var w: seq<nat> :| Way(h, s, w) && To(h, s, w) == t && Crosses(h, s, w);
    WayReaches(h, s, w, Arrival(name, Deep(h, s, w), t));
  }

  lemma HiddenUnrecorded(h: Graph, s: Sym, at: Timetable, t: Sym, name: string, d: nat)
    requires s in h && Schedule(h, s, at) && Hidden(h, s, t)
    requires !Specifies(h, t, name) && !DeclaresMethod(h, t, name, false)
    ensures !Recorded(h, s, at, Arrival(name, d, t))
  {
    hide Schedule, Way, To, Deep, Crosses, Started, Specifies, DeclaresMethod, Lex;
    if t in at {
      ReadFirst(h, s, at, t);
      var l: seq<nat> :| First(h, s, l) && To(h, s, l) == t && !Crosses(h, s, l);
      FirstIsOne(l, at[t]);
    }
  }

  lemma FirstIsOne(a: seq<nat>, b: seq<nat>)
    ensures NotAfter(a, b) && NotAfter(b, a) ==> a == b
  {
    if NotAfter(a, b) && NotAfter(b, a) && a != b { BeforeOneWay(a, b); }
  }

  lemma {:induction false} PlainHops(g: Graph, t: Sym, route: seq<nat>)
    requires t in g && Route(g, t, route) && !g[Last(g, t, route)].shape.Interface?
    ensures Hops(g, t, route) == |route|
    decreases |route|
  {
    hide Next;
    if route != [] {
      if g[t].shape.Interface? { InterfaceRoute(g, t, route); }
      RouteGoesOn(g, t, route[0]);
      PlainHops(g, Next(g, t, route[0]).value, route[1..]);
    }
  }

  /** The rule has what is no interface as deep as the timetable reads it, and no less. */
  lemma PlainDepth(g: Graph, s: Sym, at: Timetable, a: Arrival)
    requires s in g && Schedule(g, s, at) && Reaches(g, s, a) && a.src in g && !g[a.src].shape.Interface?
    ensures a.src in at && |at[a.src]| - 1 <= a.depth
  {
    hide Schedule, Starts, Route, Last, Hops, CrossesPtr, Reaches, Lex, NoneDeferred, Specifies, DeclaresMethod;
    var l := ReachWay(g, s, a);
    PlainHops(g, Starts(g, s)[l[0]].sym, l[1..]);
    Cover(g, s, at, l);
  }

  /** The rule has a deferred element no deeper than the struct that pushes it. */
  lemma DeferredReaches(g: Graph, s: Sym, at: Timetable, t: Sym, k: nat, name: string) returns (a: Arrival)
    requires s in g && Schedule(g, s, at) && DeferredAt(g, at, t, k) && Specifies(g, Next(g, t, k).value, name)
    ensures Reaches(g, s, a) && a.name == name && a.src == Next(g, t, k).value && a.depth <= |at[t]| - 1
  {
    hide Schedule, Way, To, Deep, Crosses, Next, Reaches;
    var l := WayOf(g, s, at, t);
    WaySnoc(g, s, l, k);
    a := Arrival(name, Deep(g, s, l + [k]), Next(g, t, k).value);
    WayReaches(g, s, l + [k], a);
  }

  /** What a deferred element specifies is hidden by the struct that pushes the element: the code has
      the struct's method, which the rule does not give. */
  lemma DeferredMisses(g: Graph, s: Sym, at: Timetable, t: Sym, k: nat, name: string) returns (h: Graph, p: Sym)
    requires s in g && Regular(g, s) && Schedule(g, s, at) && DeferredAt(g, at, t, k)
    ensures SameEmbeds(g, h) && s in h && Finds(h, s, name, p) && !Gives(h, s, name, p)
    ensures p in g && g[p].shape.Struct? && h == Only(g, p, false, {Next(g, t, k).value}, name)
  {
    hide Regular, Schedule, SameEmbeds, Only, Reaches, Way, To, Deep, Crosses, InMethodSet, Started, InRule, Next;
    hide Recorded;
    hide Specifies, DeclaresMethod;
    p := DeferredIs(g, s, at, t, k);
    var u := Next(g, t, k).value;
    NextInside(g, t, k);
    h := Only(g, p, false, {u}, name);
    RegularSame(g, h, s);
    ScheduleSame(g, h, s, at);
    KindSame(g, h, p);
    KindSame(g, h, u);
    DeferredSame(g, h, at, t, k);
    NextSame(g, h, t, k);
    OnlyDeclares(g, p, false, {u}, name, p);
    OnlyDeclares(g, p, false, {u}, name, u);
    PushersName(h, s, at, p, u, name);
    forall b | Recorded(h, s, at, b) && b.name == name ensures b.src == p || b.src == u {
      RecordedReaches(h, s, at, b);
      OnlyFrom(g, s, p, false, {u}, name, b);
    }
    PushersAlone(h, s, at, p, u, name);
    var c := DeferredReaches(h, s, at, t, k, name);
    forall d: nat ensures !InRule(h, s, Arrival(name, d, p)) { PusherGivesNot(h, s, at, p, c, d); }
  }

  lemma PushersName(h: Graph, s: Sym, at: Timetable, p: Sym, u: Sym, name: string)
    requires s in h && Schedule(h, s, at) && p in at && DeclaresMethod(h, p, name, false)
    ensures at[p] != [] && Recorded(h, s, at, Arrival(name, |at[p]| - 1, p))
  {
    hide Schedule, Way, To, Deep, Crosses, Started, Specifies;
    ReadOnWay(h, s, at, p);
  }

  lemma PushersAlone(h: Graph, s: Sym, at: Timetable, p: Sym, u: Sym, name: string)
    requires s in h && Regular(h, s) && Schedule(h, s, at) && p in at && u in at && |at[u]| == |at[p]| + 1
    requires at[p] != [] && Recorded(h, s, at, Arrival(name, |at[p]| - 1, p))
    requires forall b :: Recorded(h, s, at, b) && b.name == name ==> b.src == p || b.src == u
    ensures Finds(h, s, name, p)
  {
    hide Regular, Schedule, InMethodSet, Way, Specifies, DeclaresMethod, Crosses, Started;
    var a := Arrival(name, |at[p]| - 1, p);
    forall b | Recorded(h, s, at, b) && b.name == name ensures b.depth > a.depth || b == a {
      assert b.depth == |at[b.src]| - 1;
    }
    MetIff(h, s, at, a);
  }

  lemma PusherGivesNot(h: Graph, s: Sym, at: Timetable, p: Sym, c: Arrival, d: nat)
    requires s in h && Schedule(h, s, at) && Reaches(h, s, c) && c.src != p && p in at && p in h
    requires !h[p].shape.Interface? && c.depth <= |at[p]| - 1
    ensures !InRule(h, s, Arrival(c.name, d, p))
  {
    hide Schedule, Reaches;
    if InRule(h, s, Arrival(c.name, d, p)) { PlainDepth(h, s, at, Arrival(c.name, d, p)); }
  }

  /** Whatever methods and specs are declared the method set has from every declaration the names the
      rule gives: exactly when no declaration is hidden and no element deferred. */
  lemma HarmlessIff(g: Graph, s: Sym, at: Timetable)
    requires s in g && Regular(g, s) && Schedule(g, s, at)
    ensures NoneDeferred(g, at) && (forall t: Sym :: !Hidden(g, s, t)) <==>
      forall h: Graph, name: string, t: Sym :: SameEmbeds(g, h) && s in h ==>
        (Finds(h, s, name, t) <==> Gives(h, s, name, t))
  {
    hide Regular, Schedule, Hidden, Finds, Gives, SameEmbeds, DeferredAt;
    if NoneDeferred(g, at) && forall t: Sym :: !Hidden(g, s, t) {
      forall h: Graph, name: string, t: Sym | SameEmbeds(g, h) && s in h
        ensures Finds(h, s, name, t) <==> Gives(h, s, name, t)
      {
        HarmlessThere(g, h, s, at, name, t);
      }
    } else if t: Sym, k: nat :| DeferredAt(g, at, t, k) {
      var h, p := DeferredMisses(g, s, at, t, k, "M");
    } else {
      var t: Sym :| Hidden(g, s, t);
      HiddenMisses(g, s, at, t, "M");
      assert SameEmbeds(g, Only(g, t, true, {}, "M"));
    }
  }

  lemma HarmlessThere(g: Graph, h: Graph, s: Sym, at: Timetable, name: string, t: Sym)
    requires s in g && Regular(g, s) && Schedule(g, s, at) && NoneDeferred(g, at) && SameEmbeds(g, h) && s in h
    requires forall u: Sym :: !Hidden(g, s, u)
    ensures Finds(h, s, name, t) <==> Gives(h, s, name, t)
  {
    hide Regular, Schedule, Hidden, SameEmbeds, DeferredAt, InMethodSet, InRule;
    SameBack(g, h);
    RegularSame(g, h, s);
    ScheduleSame(g, h, s, at);
    forall u: Sym ensures !Hidden(h, s, u) {
      if Hidden(h, s, u) { HiddenSame(h, g, s, u); }
    }
    forall u: Sym, k: nat ensures !DeferredAt(h, at, u, k) { DeferredSame(g, h, at, u, k); }
    forall d: nat ensures InMethodSet(h, s, Arrival(name, d, t)) <==> InRule(h, s, Arrival(name, d, t)) {
      MethodSetIff(h, s, at, Arrival(name, d, t));
    }
  }
}
