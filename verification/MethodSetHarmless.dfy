/** Which embeddings have the method set Go's rule gives, whatever methods and specs are declared. */
module MethodSetHarmless {
  import opened Basics
  import opened MethodSet
  import opened MethodSetLaw
  import opened MethodSetCover
  import opened MethodSetQueue
  import opened MethodSetSchedule
  import opened MethodSetExact
  import opened MethodSetTables
  import opened Promotion
  import opened MethodSetMeets
  import opened MethodSetGaps

  // ---- What depends on the embeddings alone ---------------------------------------------------------

  lemma {:induction false} UnaliasSame(g: Graph, h: Graph, x: Sym, n: nat)
    requires SameEmbeds(g, h)
    ensures Unalias(g, x, n) == Unalias(h, x, n)
    decreases n
  {
    if n > 0 && x in g {
      KindSame(g, h, x);
      if g[x].shape.Named? && g[x].shape.alias { UnaliasSame(g, h, g[x].shape.next, n - 1); }
    }
  }

  lemma DenotesSame(g: Graph, h: Graph, x: Sym, u: Sym)
    requires SameEmbeds(g, h)
    ensures Denotes(g, x, u) <==> Denotes(h, x, u)
  {
    hide SameEmbeds;
    if n: nat :| Unalias(g, x, n) == Some(u) { UnaliasSame(g, h, x, n); }
    if n: nat :| Unalias(h, x, n) == Some(u) { UnaliasSame(g, h, x, n); }
  }

  lemma OverSame(g: Graph, h: Graph, u: Sym)
    requires SameEmbeds(g, h) && OverInterface(g, u)
    ensures OverInterface(h, u)
  {
    hide SameEmbeds, Ends;
    var w: Sym :| Ends(g, u, w) && w in g && g[w].shape.Interface?;
    EndsSame(g, h, u, w);
    KindSame(g, h, w);
  }

  lemma TransparentSame(g: Graph, h: Graph, x: Sym)
    requires SameEmbeds(g, h) && Transparent(g, x)
    ensures Transparent(h, x)
  {
    hide SameEmbeds, Denotes, OverInterface;
    forall u: Sym | Denotes(h, x, u) ensures Clear(h, u) {
      DenotesSame(g, h, x, u);
      KindSame(g, h, u);
      if g[u].shape.Named? { OverSame(g, h, u); }
    }
  }

  lemma StepSame(g: Graph, h: Graph, t: Sym, k: nat, u: Sym, ptr: bool)
    requires SameEmbeds(g, h) && Step(g, t, k, u, ptr)
    ensures Step(h, t, k, u, ptr)
  {
    hide SameEmbeds, Ends, Denotes;
    var w: Sym :| Ends(g, t, w) && FieldAt(g, w, k, u, ptr);
    EndsSame(g, h, t, w);
    KindSame(g, h, w);
    DenotesSame(g, h, g[w].shape.fields[k].sym, u);
    assert FieldAt(h, w, k, u, ptr);
  }

  lemma StartClearSame(g: Graph, h: Graph, s: Sym)
    requires SameEmbeds(g, h) && s in g && StartClear(g, s)
    ensures s in h && StartClear(h, s)
  {
    hide SameEmbeds, Step, OverInterface, Transparent;
    SameBack(g, h);
    KindSame(g, h, s);
    if Defined(g, s) {
      if OverInterface(h, s) { OverSame(h, g, s); }
      forall k: nat, v: Sym, ptr: bool | Step(h, s, k, v, ptr) ensures v == s { StepSame(h, g, s, k, v, ptr); }
    } else {
      TransparentSame(g, h, s);
    }
  }

  lemma AllClearSame(g: Graph, h: Graph, s: Sym)
    requires SameEmbeds(g, h) && s in g && AllClear(g, s)
    ensures s in h && AllClear(h, s)
  {
    hide SameEmbeds, StartClear, Transparent, On, Target;
    SameBack(g, h);
    StartClearSame(g, h, s);
    forall t: Sym, k: nat | LiveAt(h, s, t, k) && h[t].shape.Struct? ensures Transparent(h, Target(h, t, k)) {
      LiveSame(h, g, s, t, k);
      KindSame(h, g, t);
      TransparentSame(g, h, Target(g, t, k));
    }
  }

  // ---- A table that shows what is passed through ------------------------------------------------------

  /** Only `src` has the name: as a spec if it is an interface, or by a method of its value. */
  function Lone(g: Graph, src: Sym, name: string): (h: Graph)
    ensures SameEmbeds(g, h)
  {
    Only(g, src, false, {src}, name)
  }

  lemma LoneHas(g: Graph, src: Sym, name: string, any: bool)
    requires src in g && !OverInterface(g, src)
    ensures var h := Lone(g, src, name); src in h && HasMember(h, src, name, any)
  {
    hide SameEmbeds, OverInterface, OnlySpec;
    var h := Lone(g, src, name);
    SameBack(g, h);
    if OverInterface(h, src) { OverSame(h, g, src); }
    assert Method(name, false) in h[src].methods;
  }

  lemma LoneSpecifies(g: Graph, v: Sym, src: Sym, name: string, any: bool)
    requires v in g && Ends(g, v, src) && src in g && g[src].shape.Interface?
    ensures var h := Lone(g, src, name); v in h && HasMember(h, v, name, any)
  {
    hide SameEmbeds, Ends, OnlySpec;
    var h := Lone(g, src, name);
    KindSame(g, h, v);
    KindSame(g, h, src);
    EndsSame(g, h, v, src);
    OnlyDeclares(g, src, false, {src}, name, src);
    assert OverInterface(h, v);
    assert Inside(h, src, [], src);
    assert Declares(h, v, name, src);
  }

  /** Whatever offers the name has it from `src` alone. */
  lemma LoneOffers(g: Graph, s: Sym, src: Sym, name: string, d: nat, u: Sym)
    requires Offers(Lone(g, src, name), s, name, d, u)
    ensures var h := Lone(g, src, name); u in h && SoleSource(h, u, name, src)
  {
    hide SameEmbeds, Denotes, Path, Ends, Inside, Only;
    var h := Lone(g, src, name);
    var e: Sym, route: seq<nat>, ptr: bool :| |route| == d && OffersBy(h, s, name, e, route, u, ptr);
    SameBack(g, h);
    KindSame(h, g, u);
    if OverInterface(h, u) {
      forall w: Sym | Declares(h, u, name, w) ensures w == src { LoneDeclares(g, src, name, u, w); }
    } else {
      var m :| m in h[u].methods && m.name == name && (route == [] || ptr || !m.ptrRecv);
      OnlyDeclares(g, src, false, {src}, name, u);
      if h[u].shape.Interface? { PlainOver(h, u); }
      assert DeclaresMethod(h, u, name, true);
    }
  }

  lemma LoneDeclares(g: Graph, src: Sym, name: string, u: Sym, w: Sym)
    requires Declares(Lone(g, src, name), u, name, w)
    ensures w == src
  {
    hide SameEmbeds, Ends, Inside, Only;
    var h := Lone(g, src, name);
    SameBack(g, h);
    KindSame(h, g, w);
    OnlyDeclares(g, src, false, {src}, name, w);
  }

  /** What is offered from one declaration only the rule promotes, where it is least deep. */
  lemma {:induction false} LeastGranted(h: Graph, s: Sym, name: string, src: Sym, d: nat, u: Sym)
    requires Offers(h, s, name, d, u)
    requires forall d: nat, u: Sym :: Offers(h, s, name, d, u) ==> u in h && SoleSource(h, u, name, src)
    ensures exists d': nat :: Granted(h, s, Arrival(name, d', src))
    decreases d
  {
    hide Offers, SoleSource, OneMember;
    if d', u': Sym :| 0 <= d' < d && Offers(h, s, name, d', u') {
      LeastGranted(h, s, name, src, d', u');
    } else {
      forall d': nat, u': Sym | Offers(h, s, name, d', u') ensures d' > d || (d' == d && OneMember(h, name, u, u')) {
        if d' == d { SoleIsOne(h, name, u, u', src); }
      }
      assert Promoted(h, s, name, d, u);
      assert Granted(h, s, Arrival(name, d, src));
    }
  }

  // ---- Ways to what is passed through -----------------------------------------------------------------

  lemma {:induction false} PathSnoc(h: Graph, t: Sym, p: seq<nat>, v: Sym, ptr: bool, k: nat, u: Sym, q: bool)
    requires Path(h, t, p, v, ptr) && Step(h, v, k, u, q)
    ensures Path(h, t, p + [k], u, ptr || q)
    decreases |p|
  {
    hide Step;
    if p == [] {
      assert p + [k] == [k];
      OneStep(h, v, k, u, q);
    } else {
      var w: Sym, a: bool, b: bool :| Step(h, t, p[0], w, a) && Path(h, w, p[1..], v, b) && ptr == (a || b);
      PathSnoc(h, w, p[1..], v, b, k, u, q);
      assert (p + [k])[0] == p[0] && (p + [k])[1..] == p[1..] + [k];
      PathCons(h, t, p + [k], w, a, u, ptr || q);
    }
  }

  /** A way of the walk down to a struct is one of the rule, over the types the fields stand for. */
  lemma {:induction false} WalkPath(h: Graph, v0: Sym, x: Sym, route: seq<nat>)
    returns (p: seq<nat>, v: Sym, ptr: bool)
    requires Ends(h, v0, x) && x in h && Route(h, x, route) && h[Last(h, x, route)].shape.Struct?
    ensures Path(h, v0, p, v, ptr) && Ends(h, v, Last(h, x, route))
    decreases |route|
  {
    hide Next, Ends, Step, Denotes, ByPtr;
    if route == [] {
      p, v, ptr := [], v0, false;
    } else {
      var k, w := route[0], Next(h, x, route[0]).value;
      if h[x].shape.Interface? { InterfaceRoute(h, x, route); }
      RouteGoesStruct(h, x, k);
      var u := NextDenoted(h, v0, x, k);
      var p', q;
      p', v, q := WalkPath(h, u, w, route[1..]);
      p, ptr := [k] + p', ByPtr(h, x, k) || q;
      assert p[1..] == p';
      PathCons(h, v0, p, u, ByPtr(h, x, k), v, ptr);
    }
  }

  lemma NextDenoted(h: Graph, v0: Sym, x: Sym, k: nat) returns (u: Sym)
    requires Ends(h, v0, x) && x in h && h[x].shape.Struct? && Next(h, x, k).Some? && Refers(h, x, k)
    ensures Ends(h, u, Next(h, x, k).value) && Step(h, v0, k, u, ByPtr(h, x, k))
  {
    hide Ends, Denotes, End;
    var w := Next(h, x, k).value;
    EndIsEnds(h, Target(h, x, k), w);
    u := Denoted(h, Target(h, x, k), w);
    assert FieldAt(h, x, k, u, ByPtr(h, x, k));
  }

  /** So the rule reaches what a field on the way stands for. */
  lemma FieldReached(h: Graph, s: Sym, t: Sym, k: nat, u: Sym, name: string) returns (d: nat)
    requires s in h && LiveAt(h, s, t, k) && h[t].shape.Struct? && Denotes(h, Target(h, t, k), u) && u in h
    requires forall any :: HasMember(h, u, name, any)
    ensures Offers(h, s, name, d, u)
  {
    hide Denotes, Ends, Starts, Route, Last, Path, HasMember, Hops, CrossesPtr;
    var x, route :| x in Starts(h, s) && Route(h, x.sym, route) && Last(h, x.sym, route) == t;
    var e := StartDenotes(h, s, x);
    if h[x.sym].shape.Named? { NamedRoute(h, s, route); }
    var p, v, ptr := WalkPath(h, e, x.sym, route);
    assert FieldAt(h, t, k, u, ByPtr(h, t, k));
    PathSnoc(h, e, p, v, ptr, k, u, ByPtr(h, t, k));
    d := |p + [k]|;
    assert OffersBy(h, s, name, e, p + [k], u, ptr || ByPtr(h, t, k));
  }

  // ---- What is passed through is not found -------------------------------------------------------------

  /** No way of the walk leads to a type defined by another's name, but for the queried one. */
  lemma DefinedOff(g: Graph, s: Sym, t: Sym)
    requires s in g && On(g, s, t) && t in g && g[t].shape.Named?
    ensures t == s
  {
    hide Starts, Route, Last;
    var x, route :| x in Starts(g, s) && Route(g, x.sym, route) && Last(g, x.sym, route) == t;
    LastPlain(g, x.sym, route);
    if route == [] {
      NoRoute(g, x.sym);
      var e := StartDenotes(g, s, x);
    }
  }

  /** A type defined by another's name leads nowhere. */
  lemma DefinedAlone(g: Graph, s: Sym, t: Sym)
    requires s in g && Defined(g, s) && On(g, s, t)
    ensures t == s
  {
    hide Route, Last;
    var x, route :| x in Starts(g, s) && Route(g, x.sym, route) && Last(g, x.sym, route) == t;
    NamedRoute(g, s, route);
  }

  lemma SelfOn(g: Graph, s: Sym)
    requires s in g
    ensures On(g, s, s)
  {
    hide End;
    NoRoute(g, s);
    assert Entry(s, false, 0, true) in Starts(g, s);
  }

  /** Go's rule gives the name from that declaration, at some depth. */
  ghost predicate Grants(g: Graph, s: Sym, name: string, src: Sym) {
    exists d: nat :: Granted(g, s, Arrival(name, d, src))
  }

  /** The rule has the name from where no way of the walk leads. */
  lemma LoneMisses(g: Graph, s: Sym, src: Sym, name: string, d: nat, u: Sym)
    requires s in g && s in Lone(g, src, name) && !On(g, s, src) && Offers(Lone(g, src, name), s, name, d, u)
    ensures var h := Lone(g, src, name);
      SameEmbeds(g, h) && AliasBare(h, s) && Grants(h, s, name, src) && !Finds(h, s, name, src)
  {
    hide SameEmbeds, On, InMethodSet, Lone, Granted, Offers, SoleSource;
    var h := Lone(g, src, name);
    forall d: nat, u: Sym | Offers(h, s, name, d, u) ensures u in h && SoleSource(h, u, name, src) {
      LoneOffers(g, s, src, name, d, u);
    }
    LeastGranted(h, s, name, src, d, u);
    SelfOn(g, s);
    LoneBare(g, src, name, s);
    SameBack(g, h);
    forall d': nat ensures !InMethodSet(h, s, Arrival(name, d', src)) {
      if InMethodSet(h, s, Arrival(name, d', src)) {
        KeptOn(h, s, Arrival(name, d', src));
        OnSame(h, g, s, src);
      }
    }
  }

  lemma LoneBare(g: Graph, src: Sym, name: string, s: Sym)
    requires s in g && s != src
    ensures s in Lone(g, src, name) && AliasBare(Lone(g, src, name), s)
  {
  }

  /** An embedded type defined by another's name, over no interface. */
  lemma FieldMisses(g: Graph, s: Sym, t: Sym, k: nat, u: Sym, name: string)
    requires s in g && LiveAt(g, s, t, k) && g[t].shape.Struct? && Denotes(g, Target(g, t, k), u) && !Clear(g, u)
    ensures var h := Lone(g, u, name);
      SameEmbeds(g, h) && s in h && AliasBare(h, s) && Grants(h, s, name, u) && !Finds(h, s, name, u)
  {
    hide SameEmbeds, On, Lone, Denotes, OverInterface, HasMember, Grants, Finds, AliasBare;
    var h := Lone(g, u, name);
    DenotesKind(g, Target(g, t, k), u);
    LiveSame(g, h, s, t, k);
    KindSame(g, h, t);
    DenotesSame(g, h, Target(g, t, k), u);
    KindSame(g, h, u);
    forall any ensures HasMember(h, u, name, any) { LoneHas(g, u, name, any); }
    LoneHas(g, u, name, true);
    var d := FieldReached(h, s, t, k, u, name);
    if On(g, s, u) {
      DefinedOff(g, s, u);
      DefinedAlone(g, s, t);
    }
    LoneMisses(g, s, u, name, d, u);
  }

  lemma StartOffers(h: Graph, s: Sym, e: Sym, name: string)
    requires Denotes(h, s, e) && e in h && HasMember(h, e, name, true)
    ensures Offers(h, s, name, 0, e)
  {
    hide Denotes, HasMember;
    NoStep(h, e);
    assert OffersBy(h, s, name, e, [], e, false);
  }

  lemma StepOffers(h: Graph, s: Sym, k: nat, v: Sym, ptr: bool, name: string)
    requires Denotes(h, s, s) && Step(h, s, k, v, ptr) && v in h && HasMember(h, v, name, ptr)
    ensures Offers(h, s, name, 1, v)
  {
    hide Denotes, HasMember, Step;
    OneStep(h, s, k, v, ptr);
    assert OffersBy(h, s, name, s, [k], v, ptr);
  }

  /** A queried type that stands for more than the walk starts at. */
  lemma StartMisses(g: Graph, s: Sym, name: string) returns (src: Sym)
    requires s in g && !StartClear(g, s)
    ensures var h := Lone(g, src, name);
      SameEmbeds(g, h) && s in h && AliasBare(h, s) && Grants(h, s, name, src) && !Finds(h, s, name, src)
  {
    hide SameEmbeds, On, Lone, Denotes, OverInterface, HasMember, Grants, Finds, AliasBare, Step, Clear;
    if !Defined(g, s) {
      src :| Denotes(g, s, src) && !Clear(g, src);
      AliasMisses(g, s, src, name);
    } else if OverInterface(g, s) {
      src := OverMisses(g, s, name);
    } else {
      var k: nat, v: Sym, ptr: bool :| Step(g, s, k, v, ptr) && v != s;
      src := BelowMisses(g, s, k, v, ptr, name);
    }
  }

  lemma AliasMisses(g: Graph, s: Sym, u: Sym, name: string)
    requires s in g && !Defined(g, s) && Denotes(g, s, u) && !Clear(g, u)
    ensures var h := Lone(g, u, name);
      SameEmbeds(g, h) && s in h && AliasBare(h, s) && Grants(h, s, name, u) && !Finds(h, s, name, u)
  {
    hide SameEmbeds, On, Lone, Denotes, OverInterface, HasMember, Grants, Finds, AliasBare;
    var h := Lone(g, u, name);
    DenotesKind(g, s, u);
    DenotesSame(g, h, s, u);
    LoneHas(g, u, name, true);
    StartOffers(h, s, u, name);
    if On(g, s, u) { DefinedOff(g, s, u); }
    KindSame(g, h, s);
    LoneMisses(g, s, u, name, 0, u);
  }

  lemma OverMisses(g: Graph, s: Sym, name: string) returns (src: Sym)
    requires s in g && Defined(g, s) && OverInterface(g, s)
    ensures var h := Lone(g, src, name);
      SameEmbeds(g, h) && s in h && AliasBare(h, s) && Grants(h, s, name, src) && !Finds(h, s, name, src)
  {
    hide SameEmbeds, On, Lone, Denotes, HasMember, Grants, Finds, AliasBare, Ends;
    src :| Ends(g, s, src) && src in g && g[src].shape.Interface?;
    var h := Lone(g, src, name);
    KindSame(g, h, s);
    Stands(g, s);
    DenotesSame(g, h, s, s);
    LoneSpecifies(g, s, src, name, true);
    StartOffers(h, s, s, name);
    if On(g, s, src) { DefinedAlone(g, s, src); }
    LoneMisses(g, s, src, name, 0, s);
  }

  lemma BelowMisses(g: Graph, s: Sym, k: nat, v: Sym, ptr: bool, name: string) returns (src: Sym)
    requires s in g && Defined(g, s) && Step(g, s, k, v, ptr) && v != s
    ensures var h := Lone(g, src, name);
      SameEmbeds(g, h) && s in h && AliasBare(h, s) && Grants(h, s, name, src) && !Finds(h, s, name, src)
  {
    hide SameEmbeds, On, Lone, Denotes, HasMember, Grants, Finds, AliasBare, Ends, Step, OverInterface;
    StepIn(g, s, k, v, ptr);
    Stands(g, s);
    if OverInterface(g, v) {
      src := OverEnd(g, v);
      LoneSpecifies(g, v, src, name, ptr);
    } else {
      src := v;
      LoneHas(g, v, name, ptr);
    }
    var h := Lone(g, src, name);
    KindSame(g, h, s);
    DenotesSame(g, h, s, s);
    StepSame(g, h, s, k, v, ptr);
    StepOffers(h, s, k, v, ptr, name);
    if On(g, s, src) { DefinedAlone(g, s, src); }
    LoneMisses(g, s, src, name, 1, v);
  }

  lemma StepIn(g: Graph, s: Sym, k: nat, v: Sym, ptr: bool)
    requires Step(g, s, k, v, ptr)
    ensures v in g
  {
    hide Ends, Denotes;
    var w: Sym :| Ends(g, s, w) && FieldAt(g, w, k, v, ptr);
    DenotesKind(g, g[w].shape.fields[k].sym, v);
  }

  lemma OverEnd(g: Graph, v: Sym) returns (w: Sym)
    requires OverInterface(g, v)
    ensures Ends(g, v, w) && w in g && g[w].shape.Interface?
  {
    hide Ends;
    w :| Ends(g, v, w) && w in g && g[w].shape.Interface?;
  }

  // ---- The theorem ---------------------------------------------------------------------------------------

  /** Where something is passed through that is not clear, some table shows it. */
  lemma UnclearMisses(g: Graph, s: Sym, name: string) returns (h: Graph, src: Sym)
    requires s in g && !AllClear(g, s)
    ensures SameEmbeds(g, h) && s in h && AliasBare(h, s) && Grants(h, s, name, src) && !Finds(h, s, name, src)
  {
    hide SameEmbeds, On, Lone, Denotes, Grants, Finds, AliasBare, StartClear, Clear;
    if !StartClear(g, s) {
      src := StartMisses(g, s, name);
    } else {
      var t: Sym, k: nat :| LiveAt(g, s, t, k) && g[t].shape.Struct? && !Transparent(g, Target(g, t, k));
      src :| Denotes(g, Target(g, t, k), src) && !Clear(g, src);
      FieldMisses(g, s, t, k, src, name);
    }
    h := Lone(g, src, name);
  }

  /** Whatever methods and specs are declared the method set has from every declaration the names Go's
      rule gives: exactly when nothing that is not clear is passed through, no declaration is hidden and
      no element deferred. */
  lemma GoHarmlessIff(g: Graph, s: Sym, at: Timetable)
    requires s in g && Regular(g, s) && Schedule(g, s, at)
    ensures AllClear(g, s) && NoneDeferred(g, at) && (forall t: Sym :: !Hidden(g, s, t)) <==>
      forall h: Graph, name: string, src: Sym :: SameEmbeds(g, h) && s in h && AliasBare(h, s) ==>
        (Finds(h, s, name, src) <==> Grants(h, s, name, src))
  {
    hide Regular, Schedule, Hidden, Finds, Gives, Grants, SameEmbeds, DeferredAt, AllClear, AliasBare, Only;
    if !AllClear(g, s) {
      var h, src := UnclearMisses(g, s, "M");
    } else if NoneDeferred(g, at) && forall t: Sym :: !Hidden(g, s, t) {
      forall h: Graph, name: string, src: Sym | SameEmbeds(g, h) && s in h && AliasBare(h, s)
        ensures Finds(h, s, name, src) <==> Grants(h, s, name, src)
      {
        HarmlessThere(g, h, s, at, name, src);
        GivesGrants(g, h, s, name, src);
      }
    } else if t: Sym, k: nat :| DeferredAt(g, at, t, k) {
      var h, p := DeferredShows(g, s, at, t, k, "M");
    } else {
      var t: Sym :| Hidden(g, s, t);
      HiddenMisses(g, s, at, t, "M");
      var h := Only(g, t, true, {}, "M");
      assert SameEmbeds(g, h);
      HiddenBare(g, s, t, "M");
      GivesGrants(g, h, s, "M", t);
    }
  }

  lemma GivesGrants(g: Graph, h: Graph, s: Sym, name: string, src: Sym)
    requires SameEmbeds(g, h) && s in g && Regular(g, s) && AllClear(g, s) && s in h && AliasBare(h, s)
    ensures Gives(h, s, name, src) <==> Grants(h, s, name, src)
  {
    hide SameEmbeds, Short, Terms, AllClear, AliasBare, InRule, Granted;
    RegularSame(g, h, s);
    AllClearSame(g, h, s);
    forall d: nat ensures InRule(h, s, Arrival(name, d, src)) <==> Granted(h, s, Arrival(name, d, src)) {
      RulesAgree(h, s, Arrival(name, d, src));
    }
  }

  lemma DeferredShows(g: Graph, s: Sym, at: Timetable, t: Sym, k: nat, name: string) returns (h: Graph, p: Sym)
    requires s in g && Regular(g, s) && Schedule(g, s, at) && AllClear(g, s) && DeferredAt(g, at, t, k)
    ensures SameEmbeds(g, h) && s in h && AliasBare(h, s) && Finds(h, s, name, p) && !Grants(h, s, name, p)
  {
    hide Regular, Schedule, Finds, Gives, Grants, SameEmbeds, AllClear, AliasBare, Only, Next;
    h, p := DeferredMisses(g, s, at, t, k, name);
    PlainBare(g, p, false, {Next(g, t, k).value}, name, s);
    GivesGrants(g, h, s, name, p);
  }

  lemma PlainBare(g: Graph, p: Sym, ptrRecv: bool, us: set<Sym>, name: string, s: Sym)
    requires s in g && p in g && !g[p].shape.Named?
    ensures s in Only(g, p, ptrRecv, us, name) && AliasBare(Only(g, p, ptrRecv, us, name), s)
  {
  }

  lemma HiddenBare(g: Graph, s: Sym, t: Sym, name: string)
    requires s in g && Hidden(g, s, t)
    ensures s in Only(g, t, true, {}, name) && AliasBare(Only(g, t, true, {}, name), s)
  {
    hide End, First, Way, To, Crosses;
    assert Entry(s, false, 0, true) in Starts(g, s);
  }
}
