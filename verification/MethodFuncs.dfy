/** The function view of the method walk, its unsure flag, and the walk as it runs. */
module MethodFuncs {
  import opened TypeGraph
  import opened InterfaceWalk
  import opened InterfaceEngine
  import opened MethodWalk

  /** A member of the function view: a declared method, or one synthesized from an interface's
      signature. */
  datatype Fn = DeclaredBy(owner: Id) | Synthesized(sig: Sig)

  function OwnFuncs(w: World, n: Id, ptr: bool): map<string, Fn>
    requires n in w.defs
  {
    map m | m in Own(w, n, ptr) :: DeclaredBy(n)
  }

  function SpecFuncs(w: World, n: Id): map<string, Fn>
    requires Sound(w) && n in w.defs
  {
    map m | m in Signatures(w, n) :: Synthesized(Signatures(w, n)[m])
  }

  /** Of two entries for a name the one met first stays. */
  function Funcs(w: World, td: Id, ptr: bool, seen: set<Id>): map<string, Fn>
    requires Sound(w) && td in w.defs
    decreases w.defs.Keys - seen, 0
  {
    var n := Real(w, td);
    if n in seen then map[]
    else
      var (k, p) := Elem(w, n, ptr);
      if IsInterface(w, k) then SpecFuncs(w, k)
      else EmbedFuncs(w, w.defs[k].embeds, p, seen + {n}) + OwnFuncs(w, k, p)
  }

  function EmbedFuncs(w: World, es: seq<Embed>, ptr: bool, seen: set<Id>): map<string, Fn>
    requires Sound(w)
    decreases w.defs.Keys - seen, 1 + |es|
  {
    if es == [] then map[]
    else EmbedFuncs(w, es[1..], ptr, seen) + OneFuncs(w, es[0], ptr, seen)
  }

  function OneFuncs(w: World, e: Embed, ptr: bool, seen: set<Id>): map<string, Fn>
    requires Sound(w)
    decreases w.defs.Keys - seen, 1
  {
    if e.ref !in w.to then map[]
    else if IsInterface(w, w.to[e.ref]) then SpecFuncs(w, w.to[e.ref])
    else Funcs(w, w.to[e.ref], Through(w, e, ptr), seen)
  }

  /** Some embedded field on a path does not resolve. */
  predicate Unsure(w: World, td: Id, seen: set<Id>)
    requires Sound(w) && td in w.defs
    decreases w.defs.Keys - seen, 0
  {
    var n := Real(w, td);
    n !in seen
    && var k := Elem(w, n, false).0;
       !IsInterface(w, k) && EmbedUnsure(w, w.defs[k].embeds, seen + {n})
  }

  predicate EmbedUnsure(w: World, es: seq<Embed>, seen: set<Id>)
    requires Sound(w)
    decreases w.defs.Keys - seen, 1 + |es|
  {
    es != [] && (OneUnsure(w, es[0], seen) || EmbedUnsure(w, es[1..], seen))
  }

  predicate OneUnsure(w: World, e: Embed, seen: set<Id>)
    requires Sound(w)
    decreases w.defs.Keys - seen, 1
  {
    if e.ref !in w.to then true
    else if IsInterface(w, w.to[e.ref]) then false
    else Unsure(w, w.to[e.ref], seen)
  }

  // ---- The function view agrees with the names -----------------------------------------------

  /** Signatures belong to required names. */
  predicate SigsRequired(w: World) {
    forall t :: t in w.defs ==> w.defs[t].sigs.Keys <= w.defs[t].reqs
  }

  /** Every required name has a signature: no interface is a facade. */
  predicate AllSigned(w: World) {
    forall t :: t in w.defs ==> w.defs[t].sigs.Keys == w.defs[t].reqs
  }

  lemma {:induction false} SigKeys(w: World, o: seq<Id>)
    requires Nodes(o) <= w.defs.Keys && SigsRequired(w)
    ensures SigsOf(w, o).Keys <= ReqsOf(w, o)
    ensures AllSigned(w) ==> SigsOf(w, o).Keys == ReqsOf(w, o)
  {
    if o != [] {
      assert o[0] in Nodes(o) && Nodes(o[1..]) <= Nodes(o);
      SigKeys(w, o[1..]);
      assert o == [o[0]] + o[1..];
      assert Nodes([o[0]]) <= Nodes(o);
      ReqsAdd(w, [o[0]], o[1..]);
      assert ReqsOf(w, [o[0]]) == w.defs[o[0]].reqs;
    }
  }

  lemma SpecKeys(w: World, n: Id)
    requires Sound(w) && n in w.defs && SigsRequired(w)
    ensures SpecFuncs(w, n).Keys <= Requirements(w, n)
    ensures AllSigned(w) ==> SpecFuncs(w, n).Keys == Requirements(w, n)
  {
    hide Visit;
    SigKeys(w, Visit(w, n, {}).0);
    assert SpecFuncs(w, n).Keys == Signatures(w, n).Keys;
  }

  /** The functions are functions of the names; all of them where every requirement has a
      signature. */
  lemma {:induction false} FuncsInNames(w: World, td: Id, ptr: bool, seen: set<Id>)
    requires Sound(w) && td in w.defs && SigsRequired(w)
    ensures Funcs(w, td, ptr, seen).Keys <= Names(w, td, ptr, seen)
    ensures AllSigned(w) ==> Funcs(w, td, ptr, seen).Keys == Names(w, td, ptr, seen)
    decreases w.defs.Keys - seen, 0
  {
    hide Real, Requirements, SpecFuncs, SigsRequired, AllSigned, Own;
    var n := Real(w, td);
    if n !in seen {
      var (k, p) := Elem(w, n, ptr);
      if IsInterface(w, k) {
        SpecKeys(w, k);
      } else {
        EmbedFuncsInNames(w, w.defs[k].embeds, p, seen + {n});
        assert OwnFuncs(w, k, p).Keys == Own(w, k, p);
      }
    }
  }

  lemma {:induction false} EmbedFuncsInNames(w: World, es: seq<Embed>, ptr: bool, seen: set<Id>)
    requires Sound(w) && SigsRequired(w)
    ensures EmbedFuncs(w, es, ptr, seen).Keys <= EmbedNames(w, es, ptr, seen)
    ensures AllSigned(w) ==> EmbedFuncs(w, es, ptr, seen).Keys == EmbedNames(w, es, ptr, seen)
    decreases w.defs.Keys - seen, 1 + |es|
  {
    hide Requirements, SpecFuncs, SigsRequired, AllSigned, OneFuncs, OneEmbed;
    if es != [] {
      OneFuncsInNames(w, es[0], ptr, seen);
      EmbedFuncsInNames(w, es[1..], ptr, seen);
    }
  }

  lemma {:induction false} OneFuncsInNames(w: World, e: Embed, ptr: bool, seen: set<Id>)
    requires Sound(w) && SigsRequired(w)
    ensures OneFuncs(w, e, ptr, seen).Keys <= OneEmbed(w, e, ptr, seen)
    ensures AllSigned(w) ==> OneFuncs(w, e, ptr, seen).Keys == OneEmbed(w, e, ptr, seen)
    decreases w.defs.Keys - seen, 1
  {
    hide Requirements, SpecFuncs, SigsRequired, AllSigned;
    if e.ref in w.to {
      var emb := w.to[e.ref];
      if IsInterface(w, emb) { SpecKeys(w, emb); } else { FuncsInNames(w, emb, Through(w, e, ptr), seen); }
    }
  }

  // ---- Where a function of the view comes from ---------------------------------------------------

  /** The function belongs to the type: an interface's signature, or a method of the type's own. */
  predicate FnAt(w: World, n: Id, ptr: bool, m: string, f: Fn)
    requires Sound(w) && n in w.defs
  {
    if IsInterface(w, n) then m in SpecFuncs(w, n) && f == SpecFuncs(w, n)[m]
    else m in OwnFuncs(w, n, ptr) && f == OwnFuncs(w, n, ptr)[m]
  }

  ghost predicate Backs(w: World, td: Id, ptr: bool, seen: set<Id>, route: seq<nat>, m: string, f: Fn)
    requires Sound(w) && td in w.defs
  {
    Route(w, td, route) && Free(Types(w, td, route), seen)
      && FnAt(w, End(w, td, ptr, route).0, End(w, td, ptr, route).1, m, f)
  }

  lemma {:induction false} FuncHasRoute(w: World, td: Id, ptr: bool, seen: set<Id>, m: string) returns (route: seq<nat>)
    requires Sound(w) && td in w.defs && m in Funcs(w, td, ptr, seen) && Marked(w, seen)
    ensures Backs(w, td, ptr, seen, route, m, Funcs(w, td, ptr, seen)[m])
    decreases w.defs.Keys - seen, 0
  {
    hide Real, SpecFuncs, OwnFuncs;
    var n := Real(w, td);
    var (k, p) := Elem(w, n, ptr);
    if IsInterface(w, k) || m in OwnFuncs(w, k, p) {
      route := [];
      NoRoute(w, td, ptr);
    } else {
      var i, rest := EmbedFuncRoute(w, w.defs[k].embeds, p, seen + {n}, m);
      var e := w.defs[k].embeds[i];
      route := [i] + rest;
      RouteCons(w, td, ptr, i, rest);
      FreeCons(n, Types(w, w.to[e.ref], rest), seen);
    }
  }

  lemma {:induction false} EmbedFuncRoute(w: World, es: seq<Embed>, ptr: bool, seen: set<Id>, m: string)
    returns (i: nat, rest: seq<nat>)
    requires Sound(w) && m in EmbedFuncs(w, es, ptr, seen) && Marked(w, seen)
    ensures i < |es| && es[i].ref in w.to
    ensures Backs(w, w.to[es[i].ref], Through(w, es[i], ptr), seen, rest, m, EmbedFuncs(w, es, ptr, seen)[m])
    decreases w.defs.Keys - seen, 1 + |es|
  {
    hide Real, SpecFuncs, Backs, OneFuncs, Through;
    if m in OneFuncs(w, es[0], ptr, seen) {
      i := 0;
      rest := OneFuncRoute(w, es[0], ptr, seen, m);
    } else {
      i, rest := EmbedFuncRoute(w, es[1..], ptr, seen, m);
      i := i + 1;
    }
  }

  lemma {:induction false} OneFuncRoute(w: World, e: Embed, ptr: bool, seen: set<Id>, m: string)
    returns (rest: seq<nat>)
    requires Sound(w) && m in OneFuncs(w, e, ptr, seen) && Marked(w, seen)
    ensures e.ref in w.to && Backs(w, w.to[e.ref], Through(w, e, ptr), seen, rest, m, OneFuncs(w, e, ptr, seen)[m])
    decreases w.defs.Keys - seen, 1
  {
    hide SpecFuncs;
    var emb := w.to[e.ref];
    if IsInterface(w, emb) {
      rest := [];
      NoRoute(w, emb, Through(w, e, ptr));
      InterfaceIsReal(w, emb);
    } else {
      rest := FuncHasRoute(w, emb, Through(w, e, ptr), seen, m);
    }
  }

  lemma InterfaceIsReal(w: World, n: Id)
    requires Sound(w) && n in w.defs && IsInterface(w, n)
    ensures Real(w, n) == n
  {
  }

  /** The function is the method that the type at the end of the trail declares, or has a signature
      that the interface there has. */
  ghost predicate Found(w: World, td: Id, ptr: bool, r: Trail, m: string, f: Fn)
    requires Sound(w) && td in w.defs
  {
    && ComesDown(w, td, r) && NoRepeat(r.tops)
    && match f
       case DeclaredBy(n) =>
         n == EndOf(r) && !w.defs[n].kind.Interface? && Has(w, n, m, ptr || Crosses(w, td, r))
       case Synthesized(sig) =>
         w.defs[EndOf(r)].kind.Interface? && Signed(w, EndOf(r), m, sig)
  }

  /** Every function of the view is found at the end of a trail that repeats no type; a method the type
      declares itself comes first. */
  lemma FuncsFound(w: World, td: Id, ptr: bool, m: string) returns (r: Trail)
    requires Sound(w) && td in w.defs && m in Funcs(w, td, ptr, {})
    ensures Found(w, td, ptr, r, m, Funcs(w, td, ptr, {})[m])
  {
    hide Real, Funcs, NoRepeat, Types, End, Route, ComesDown, Crosses, Signed, Signatures;
    var route := FuncHasRoute(w, td, ptr, {}, m);
    r := RouteHasTrail(w, td, route);
    TrailIsRoute(w, td, ptr, r);
    var n := EndOf(r);
    SignedIff(w, n, m);
  }

  /** A method that the type itself has is the one in its view. */
  lemma OwnFirst(w: World, td: Id, ptr: bool, m: string)
    requires Sound(w) && td in w.defs && !w.defs[Real(w, td)].kind.Interface? && !Anonymous(w, Real(w, td))
    requires Has(w, Real(w, td), m, ptr)
    ensures m in Funcs(w, td, ptr, {}) && Funcs(w, td, ptr, {})[m] == DeclaredBy(Real(w, td))
  {
    hide Real;
    Unfold(w, td, ptr, {});
  }

  // ---- When the walk is unsure ---------------------------------------------------------------

  predicate Dangling(w: World, n: Id)
    requires n in w.defs
  {
    !IsInterface(w, n) && exists e :: e in w.defs[n].embeds && e.ref !in w.to
  }

  /** The type at the end of the path has an embedded field that does not resolve. */
  ghost predicate Dangles(w: World, td: Id, seen: set<Id>, route: seq<nat>)
    requires Sound(w) && td in w.defs
  {
    Route(w, td, route) && Free(Types(w, td, route), seen) && Dangling(w, End(w, td, false, route).0)
  }

  lemma {:induction false} UnsureHasRoute(w: World, td: Id, seen: set<Id>) returns (route: seq<nat>)
    requires Sound(w) && td in w.defs && Unsure(w, td, seen)
    ensures Dangles(w, td, seen, route)
    decreases w.defs.Keys - seen, 0
  {
    hide Real, Dangling;
    var n := Real(w, td);
    var k := Elem(w, n, false).0;
    var found, i, rest := EmbedUnsureRoute(w, k, w.defs[k].embeds, 0, seen + {n});
    if found {
      var e := w.defs[k].embeds[i];
      route := [i] + rest;
      RouteCons(w, td, false, i, rest);
      FreeCons(n, Types(w, w.to[e.ref], rest), seen);
      EndFlag(w, w.to[e.ref], Through(w, e, Elem(w, n, false).1), rest);
    } else {
      route := [];
      NoRoute(w, td, false);
    }
  }

  lemma {:induction false} EmbedUnsureRoute(w: World, k: Id, es: seq<Embed>, at: nat, seen: set<Id>)
    returns (found: bool, i: nat, rest: seq<nat>)
    requires Sound(w) && k in w.defs && !IsInterface(w, k) && EmbedUnsure(w, es, seen)
    requires at <= |w.defs[k].embeds| && w.defs[k].embeds[at..] == es
    ensures if found then
        i < |w.defs[k].embeds| && w.defs[k].embeds[i].ref in w.to
          && Dangles(w, w.to[w.defs[k].embeds[i].ref], seen, rest)
      else Dangling(w, k)
    decreases w.defs.Keys - seen, 1 + |es|
  {
    i, rest := at, [];
    var e := es[0];
    assert w.defs[k].embeds[at] == e && w.defs[k].embeds[at + 1..] == es[1..];
    if OneUnsure(w, e, seen) {
      if e.ref !in w.to {
        found := false;
      } else {
        found := true;
        rest := UnsureHasRoute(w, w.to[e.ref], seen);
      }
    } else {
      found, i, rest := EmbedUnsureRoute(w, k, es[1..], at + 1, seen);
    }
  }

  lemma {:induction false} RouteGivesUnsure(w: World, td: Id, seen: set<Id>, route: seq<nat>)
    requires Sound(w) && td in w.defs && Marked(w, seen) && Dangles(w, td, seen, route)
    ensures Unsure(w, td, seen)
    decreases |route|
  {
    hide Real;
    var n := Real(w, td);
    var k := Elem(w, n, false).0;
    if route == [] {
      NoRoute(w, td, false);
      assert Types(w, td, route)[0] == n;
      var e :| e in w.defs[k].embeds && e.ref !in w.to;
      var i :| 0 <= i < |w.defs[k].embeds| && w.defs[k].embeds[i] == e;
      EmbedGivesUnsure(w, w.defs[k].embeds, i, seen + {n});
    } else {
      var i, rest := route[0], route[1..];
      assert [i] + rest == route;
      var e := w.defs[k].embeds[i];
      RouteCons(w, td, false, i, rest);
      FreeCons(n, Types(w, w.to[e.ref], rest), seen);
      EndFlag(w, w.to[e.ref], Through(w, e, Elem(w, n, false).1), rest);
      if IsInterface(w, w.to[e.ref]) {
        InterfaceIsReal(w, w.to[e.ref]);
        assert false;
      }
      RouteGivesUnsure(w, w.to[e.ref], seen + {n}, rest);
      EmbedGivesUnsure(w, w.defs[k].embeds, i, seen + {n});
    }
  }

  lemma {:induction false} EmbedGivesUnsure(w: World, es: seq<Embed>, i: nat, seen: set<Id>)
    requires Sound(w) && i < |es| && OneUnsure(w, es[i], seen)
    ensures EmbedUnsure(w, es, seen)
    decreases i
  {
    if i > 0 { EmbedGivesUnsure(w, es[1..], i - 1, seen); }
  }

  /** The trail ends at a type with an embedded field that does not resolve. */
  predicate LooseEnd(w: World, td: Id, r: Trail)
    requires Sound(w) && td in w.defs
  {
    ComesDown(w, td, r) && NoRepeat(r.tops) && !w.defs[EndOf(r)].kind.Interface?
      && exists e :: e in w.defs[EndOf(r)].embeds && e.ref !in w.to
  }

  /** The set is unsure exactly when some trail that repeats no type ends at a type with an embedded
      field that does not resolve. */
  lemma UnsureIff(w: World, td: Id)
    requires Sound(w) && td in w.defs
    ensures Unsure(w, td, {}) <==> exists r :: LooseEnd(w, td, r)
  {
    hide Real, Unsure, ComesDown, NoRepeat, Types, End, Route, Crosses;
    if Unsure(w, td, {}) {
      var route := UnsureHasRoute(w, td, {});
      var r := RouteHasTrail(w, td, route);
      TrailIsRoute(w, td, false, r);
      assert LooseEnd(w, td, r);
    }
    if r :| LooseEnd(w, td, r) {
      TrailIsRoute(w, td, false, r);
      assert Dangles(w, td, {}, r.picks);
      RouteGivesUnsure(w, td, {}, r.picks);
    }
  }

  // ---- The walk as it runs -----------------------------------------------------------------------

  lemma EmbedNext(w: World, es: seq<Embed>, i: nat, ptr: bool, seen: set<Id>)
    requires Sound(w) && i < |es|
    ensures EmbedNames(w, es[i..], ptr, seen) == OneEmbed(w, es[i], ptr, seen) + EmbedNames(w, es[i + 1..], ptr, seen)
    ensures EmbedFuncs(w, es[i..], ptr, seen) == EmbedFuncs(w, es[i + 1..], ptr, seen) + OneFuncs(w, es[i], ptr, seen)
    ensures EmbedUnsure(w, es[i..], seen) == (OneUnsure(w, es[i], seen) || EmbedUnsure(w, es[i + 1..], seen))
  {
    hide OneEmbed, OneFuncs, OneUnsure;
    assert es[i..][1..] == es[i + 1..];
  }

  lemma EmbedNone(w: World, ptr: bool, seen: set<Id>)
    requires Sound(w)
    ensures EmbedNames(w, [], ptr, seen) == {} && EmbedFuncs(w, [], ptr, seen) == map[] && !EmbedUnsure(w, [], seen)
  {
  }

  lemma Unfold(w: World, td: Id, ptr: bool, seen: set<Id>)
    requires Sound(w) && td in w.defs
    ensures var n := Real(w, td);
      var (k, p) := Elem(w, n, ptr);
      && Names(w, td, ptr, seen) == (if n in seen then {} else if IsInterface(w, k) then Requirements(w, k)
           else Own(w, k, p) + EmbedNames(w, w.defs[k].embeds, p, seen + {n}))
      && Funcs(w, td, ptr, seen) == (if n in seen then map[] else if IsInterface(w, k) then SpecFuncs(w, k)
           else EmbedFuncs(w, w.defs[k].embeds, p, seen + {n}) + OwnFuncs(w, k, p))
      && Unsure(w, td, seen) == (n !in seen && !IsInterface(w, k) && EmbedUnsure(w, w.defs[k].embeds, seen + {n}))
  {
    hide Real, Requirements, Own, SpecFuncs;
  }

  lemma MergeEarlier(a: map<string, Fn>, b: map<string, Fn>, c: map<string, Fn>)
    ensures a + (b + c) == (a + b) + c
  {
  }

  /** The three cases of an embedded field. */
  lemma OneUnfold(w: World, e: Embed, ptr: bool, seen: set<Id>)
    requires Sound(w)
    ensures e.ref !in w.to ==>
      OneEmbed(w, e, ptr, seen) == {} && OneFuncs(w, e, ptr, seen) == map[] && OneUnsure(w, e, seen)
    ensures e.ref in w.to && IsInterface(w, w.to[e.ref]) ==>
      OneEmbed(w, e, ptr, seen) == Requirements(w, w.to[e.ref])
        && OneFuncs(w, e, ptr, seen) == SpecFuncs(w, w.to[e.ref])
      && !OneUnsure(w, e, seen)
    ensures e.ref in w.to && !IsInterface(w, w.to[e.ref]) ==>
      OneEmbed(w, e, ptr, seen) == Names(w, w.to[e.ref], Through(w, e, ptr), seen)
      && OneFuncs(w, e, ptr, seen) == Funcs(w, w.to[e.ref], Through(w, e, ptr), seen)
      && OneUnsure(w, e, seen) == Unsure(w, w.to[e.ref], seen)
  {
    hide Requirements, SpecFuncs, Names, Funcs, Unsure;
  }

  class Walker {
    const w: World
    var seen: set<Id>

    constructor (world: World)
      ensures w == world && seen == {}
    {
      w, seen := world, {};
    }

    /** What one embedded field contributes. */
    method Field(e: Embed, ptr: bool) returns (names: set<string>, funcs: map<string, Fn>, unsure: bool)
      requires Sound(w)
      modifies this
      ensures seen == old(seen)
      ensures names == OneEmbed(w, e, ptr, seen) && funcs == OneFuncs(w, e, ptr, seen)
      ensures unsure == OneUnsure(w, e, seen)
      decreases w.defs.Keys - seen, 1
    {
      hide Names, Funcs, Unsure, Requirements, SpecFuncs, OneEmbed, OneFuncs, OneUnsure;
      OneUnfold(w, e, ptr, seen);
      if e.ref !in w.to { return {}, map[], true; }
      var emb := w.to[e.ref];
      if IsInterface(w, emb) { return Requirements(w, emb), SpecFuncs(w, emb), false; }
      names, funcs, unsure := Walk(emb, Through(w, e, ptr));
    }

    /** methodWalkU: the marks are the types on the current path, and lifted on the way back. */
    method Walk(start: Id, viaPtr: bool) returns (names: set<string>, funcs: map<string, Fn>, unsure: bool)
      requires Sound(w) && start in w.defs
      modifies this
      ensures seen == old(seen)
      ensures names == Names(w, start, viaPtr, seen) && funcs == Funcs(w, start, viaPtr, seen)
      ensures unsure == Unsure(w, start, seen)
      decreases w.defs.Keys - seen, 0
    {
      hide Real, Names, Funcs, Unsure, Requirements, SpecFuncs, EmbedNames, EmbedFuncs, EmbedUnsure;
      hide OneEmbed, OneFuncs, OneUnsure, Own, OwnFuncs;
      var td := PeelAlias(w, start);
      Unfold(w, start, viaPtr, seen);
      if td in seen { return {}, map[], false; }
      seen := seen + {td};
      ghost var marks := seen;
      var (k, ptr) := Elem(w, td, viaPtr);
      if IsInterface(w, k) {
        names, funcs, unsure := Requirements(w, k), SpecFuncs(w, k), false;
      } else {
        names, funcs, unsure := Own(w, k, ptr), OwnFuncs(w, k, ptr), false;
        var es := w.defs[k].embeds;
        assert es[0..] == es;
        for i := 0 to |es|
          invariant seen == marks
          invariant names + EmbedNames(w, es[i..], ptr, marks) == Own(w, k, ptr) + EmbedNames(w, es, ptr, marks)
          invariant EmbedFuncs(w, es[i..], ptr, marks) + funcs == EmbedFuncs(w, es, ptr, marks) + OwnFuncs(w, k, ptr)
          invariant (unsure || EmbedUnsure(w, es[i..], marks)) == EmbedUnsure(w, es, marks)
        {
          EmbedNext(w, es, i, ptr, marks);
          MergeEarlier(EmbedFuncs(w, es[i + 1..], ptr, marks), OneFuncs(w, es[i], ptr, marks), funcs);
          var subNames, subFuncs, subUnsure := Field(es[i], ptr);
          names, funcs, unsure := names + subNames, subFuncs + funcs, unsure || subUnsure;
        }
        assert es[|es|..] == [];
        EmbedNone(w, ptr, marks);
      }
      seen := seen - {td};
    }
  }
}
