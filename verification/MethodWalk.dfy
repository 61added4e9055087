/** The method walk behind dynamic interface checks: declared and promoted methods along every
    embed path that repeats no type. */
module MethodWalk {
  import opened TypeGraph
  import opened InterfaceWalk

  // ---- The walk --------------------------------------------------------------------------

  /** An anonymous *T stands for T, reached through a pointer. */
  function Elem(w: World, n: Id, ptr: bool): (r: (Id, bool))
    requires Sound(w) && n in w.defs
    ensures r.0 in w.defs
  {
    var k := w.defs[n].kind;
    if k.Pointer? && !k.declared && k.elem in w.to then (w.to[k.elem], true) else (n, ptr)
  }

  function Own(w: World, n: Id, ptr: bool): set<string>
    requires n in w.defs
  {
    set m | m in w.defs[n].methods && !w.defs[n].methods[m].generic && (w.defs[n].methods[m].ptrRecv ==> ptr)
  }

  predicate IsInterface(w: World, n: Id)
    requires n in w.defs
  {
    w.defs[n].kind.Interface?
  }

  /** The flag under which an embedded field's methods are looked up. */
  function Through(w: World, e: Embed, ptr: bool): bool
    requires Sound(w) && e.ref in w.to
  {
    ptr || e.star || w.defs[w.to[e.ref]].kind.Pointer?
  }

  function Names(w: World, td: Id, ptr: bool, seen: set<Id>): set<string>
    requires Sound(w) && td in w.defs
    decreases w.defs.Keys - seen, 0
  {
    var n := Real(w, td);
    if n in seen then {}
    else
      var (k, p) := Elem(w, n, ptr);
      if IsInterface(w, k) then Requirements(w, k)
      else Own(w, k, p) + EmbedNames(w, w.defs[k].embeds, p, seen + {n})
  }

  function EmbedNames(w: World, es: seq<Embed>, ptr: bool, seen: set<Id>): set<string>
    requires Sound(w)
    decreases w.defs.Keys - seen, 1 + |es|
  {
    if es == [] then {}
    else OneEmbed(w, es[0], ptr, seen) + EmbedNames(w, es[1..], ptr, seen)
  }

  function OneEmbed(w: World, e: Embed, ptr: bool, seen: set<Id>): set<string>
    requires Sound(w)
    decreases w.defs.Keys - seen, 1
  {
    if e.ref !in w.to then {}
    else if IsInterface(w, w.to[e.ref]) then Requirements(w, w.to[e.ref])
    else Names(w, w.to[e.ref], Through(w, e, ptr), seen)
  }

  // ---- Embed paths -------------------------------------------------------------------------

  /** `route` picks an embedded field at every type, each of which resolves. */
  predicate Route(w: World, td: Id, route: seq<nat>)
    requires Sound(w) && td in w.defs
    decreases |route|
  {
    route != [] ==>
      var k := Elem(w, Real(w, td), false).0;
      !IsInterface(w, k) && route[0] < |w.defs[k].embeds| && w.defs[k].embeds[route[0]].ref in w.to
      && Route(w, w.to[w.defs[k].embeds[route[0]].ref], route[1..])
  }

  /** The types on the way. */
  function Types(w: World, td: Id, route: seq<nat>): seq<Id>
    requires Sound(w) && td in w.defs && Route(w, td, route)
    decreases |route|
  {
    var n := Real(w, td);
    if route == [] then [n]
    else [n] + Types(w, w.to[w.defs[Elem(w, n, false).0].embeds[route[0]].ref], route[1..])
  }

  /** The type at its end, and whether a pointer was crossed on the way. */
  function End(w: World, td: Id, ptr: bool, route: seq<nat>): (r: (Id, bool))
    requires Sound(w) && td in w.defs && Route(w, td, route)
    ensures r.0 in w.defs
    decreases |route|
  {
    var (k, p) := Elem(w, Real(w, td), ptr);
    if route == [] then (k, p)
    else
      var e := w.defs[k].embeds[route[0]];
      End(w, w.to[e.ref], Through(w, e, p), route[1..])
  }

  predicate NoRepeat(s: seq<Id>) {
    forall i, j :: 0 <= i < j < |s| ==> s[i] != s[j]
  }

  /** What a type declares itself under the flag. */
  function Declared(w: World, n: Id, ptr: bool): set<string>
    requires Sound(w) && n in w.defs
  {
    if IsInterface(w, n) then Requirements(w, n) else Own(w, n, ptr)
  }

  predicate Free(s: seq<Id>, seen: set<Id>) {
    NoRepeat(s) && forall k :: 0 <= k < |s| ==> s[k] !in seen
  }

  lemma FreeCons(n: Id, s: seq<Id>, seen: set<Id>)
    ensures Free([n] + s, seen) <==> n !in seen && Free(s, seen + {n})
  {
    var t := [n] + s;
    assert forall k :: 0 <= k < |s| ==> t[k + 1] == s[k];
    if Free(t, seen) {
      assert t[0] == n;
      assert forall k :: 0 <= k < |s| ==> s[k] == t[k + 1] && t[k + 1] != t[0];
    }
    if n !in seen && Free(s, seen + {n}) {
      forall i, j | 0 <= i < j < |t| ensures t[i] != t[j] {
        assert t[j] == s[j - 1];
        if i > 0 { assert t[i] == s[i - 1]; }
      }
    }
  }

  /** One more field in front. */
  lemma RouteCons(w: World, td: Id, ptr: bool, i: nat, rest: seq<nat>)
    requires Sound(w) && td in w.defs
    requires var k := Elem(w, Real(w, td), ptr).0;
      !IsInterface(w, k) && i < |w.defs[k].embeds| && w.defs[k].embeds[i].ref in w.to
        && Route(w, w.to[w.defs[k].embeds[i].ref], rest)
    ensures Route(w, td, [i] + rest)
    ensures var (k, p) := Elem(w, Real(w, td), ptr);
      var e := w.defs[k].embeds[i];
      && Types(w, td, [i] + rest) == [Real(w, td)] + Types(w, w.to[e.ref], rest)
      && End(w, td, ptr, [i] + rest) == End(w, w.to[e.ref], Through(w, e, p), rest)
  {
    hide Real;
    assert ([i] + rest)[1..] == rest;
  }

  lemma NoRoute(w: World, td: Id, ptr: bool)
    requires Sound(w) && td in w.defs
    ensures Route(w, td, []) && Types(w, td, []) == [Real(w, td)] && End(w, td, ptr, []) == Elem(w, Real(w, td), ptr)
  {
  }

  ghost predicate Offers(w: World, td: Id, ptr: bool, seen: set<Id>, route: seq<nat>, m: string)
    requires Sound(w) && td in w.defs
  {
    Route(w, td, route) && Free(Types(w, td, route), seen)
      && m in Declared(w, End(w, td, ptr, route).0, End(w, td, ptr, route).1)
  }

  /** Interfaces end a path, so none is ever marked. */
  predicate Marked(w: World, seen: set<Id>) {
    forall n :: n in seen ==> n in w.defs && !IsInterface(w, n)
  }

  /** A name found has a path. */
  lemma {:induction false} NameHasRoute(w: World, td: Id, ptr: bool, seen: set<Id>, m: string) returns (route: seq<nat>)
    requires Sound(w) && td in w.defs && m in Names(w, td, ptr, seen) && Marked(w, seen)
    ensures Offers(w, td, ptr, seen, route, m)
    decreases w.defs.Keys - seen, 0
  {
    hide Real, Requirements;
    var n := Real(w, td);
    var (k, p) := Elem(w, n, ptr);
    if IsInterface(w, k) || m in Own(w, k, p) {
      route := [];
      NoRoute(w, td, ptr);
    } else {
      var i, rest := EmbedHasRoute(w, w.defs[k].embeds, p, seen + {n}, m);
      var e := w.defs[k].embeds[i];
      route := [i] + rest;
      RouteCons(w, td, ptr, i, rest);
      FreeCons(n, Types(w, w.to[e.ref], rest), seen);
    }
  }

  lemma {:induction false} EmbedHasRoute(w: World, es: seq<Embed>, ptr: bool, seen: set<Id>, m: string)
    returns (i: nat, rest: seq<nat>)
    requires Sound(w) && m in EmbedNames(w, es, ptr, seen) && Marked(w, seen)
    ensures i < |es| && es[i].ref in w.to && Offers(w, w.to[es[i].ref], Through(w, es[i], ptr), seen, rest, m)
    decreases w.defs.Keys - seen, 1 + |es|
  {
    hide Real, Requirements;
    if m in OneEmbed(w, es[0], ptr, seen) {
      i := 0;
      rest := OneHasRoute(w, es[0], ptr, seen, m);
    } else {
      i, rest := EmbedHasRoute(w, es[1..], ptr, seen, m);
      i := i + 1;
    }
  }

  lemma {:induction false} OneHasRoute(w: World, e: Embed, ptr: bool, seen: set<Id>, m: string) returns (rest: seq<nat>)
    requires Sound(w) && m in OneEmbed(w, e, ptr, seen) && Marked(w, seen)
    ensures e.ref in w.to && Offers(w, w.to[e.ref], Through(w, e, ptr), seen, rest, m)
    decreases w.defs.Keys - seen, 1
  {
    hide Requirements;
    var emb := w.to[e.ref];
    if IsInterface(w, emb) {
      rest := [];
      NoRoute(w, emb, Through(w, e, ptr));
    } else {
      rest := NameHasRoute(w, emb, Through(w, e, ptr), seen, m);
    }
  }

  lemma {:induction false} RouteGivesName(w: World, td: Id, ptr: bool, seen: set<Id>, route: seq<nat>, m: string)
    requires Sound(w) && td in w.defs && Marked(w, seen) && Offers(w, td, ptr, seen, route, m)
    ensures m in Names(w, td, ptr, seen)
    decreases |route|, 0
  {
    hide Real, Requirements;
    var n := Real(w, td);
    var (k, p) := Elem(w, n, ptr);
    if route == [] {
      NoRoute(w, td, ptr);
      assert Types(w, td, route)[0] == n;
    } else {
      var i, rest := route[0], route[1..];
      assert [i] + rest == route;
      var e := w.defs[k].embeds[i];
      RouteCons(w, td, ptr, i, rest);
      FreeCons(n, Types(w, w.to[e.ref], rest), seen);
      assert Offers(w, w.to[e.ref], Through(w, e, p), seen + {n}, rest, m);
      RouteGivesEmbed(w, e, p, seen + {n}, rest, m);
      EmbedGives(w, w.defs[k].embeds, i, p, seen + {n}, m);
    }
  }

  lemma {:induction false} RouteGivesEmbed(w: World, e: Embed, ptr: bool, seen: set<Id>, rest: seq<nat>, m: string)
    requires Sound(w) && Marked(w, seen) && e.ref in w.to && Offers(w, w.to[e.ref], Through(w, e, ptr), seen, rest, m)
    ensures m in OneEmbed(w, e, ptr, seen)
    decreases |rest|, 1
  {
    hide Requirements;
    var emb := w.to[e.ref];
    if IsInterface(w, emb) {
      assert Real(w, emb) == emb;
      assert rest == [];
      NoRoute(w, emb, Through(w, e, ptr));
    } else {
      RouteGivesName(w, emb, Through(w, e, ptr), seen, rest, m);
    }
  }

  lemma {:induction false} EmbedGives(w: World, es: seq<Embed>, i: nat, ptr: bool, seen: set<Id>, m: string)
    requires Sound(w) && i < |es| && m in OneEmbed(w, es[i], ptr, seen)
    ensures m in EmbedNames(w, es, ptr, seen)
    decreases i
  {
    hide Requirements, OneEmbed;
    if i > 0 { EmbedGives(w, es[1..], i - 1, ptr, seen, m); }
  }

  // ---- The rule, on the tables -----------------------------------------------------------------------

  /** `*T` without a declaration of its own, and T is known. */
  predicate Anonymous(w: World, n: Id) {
    n in w.defs && w.defs[n].kind.Pointer? && !w.defs[n].kind.declared && w.defs[n].kind.elem in w.to
  }

  /** A way down the embedded fields: `tops` are the types come to, past their aliases, `bases` those
      whose members are read, which for `*T` is T, and `picks` the embedded fields taken. */
  datatype Trail = Trail(picks: seq<nat>, tops: seq<Id>, bases: seq<Id>)

  predicate Long(r: Trail) { |r.tops| == |r.bases| == |r.picks| + 1 }

  predicate BaseOk(w: World, top: Id, base: Id)
    requires Sound(w)
  {
    top in w.defs && base in w.defs && base == if Anonymous(w, top) then w.to[w.defs[top].kind.elem] else top
  }

  predicate PickOk(w: World, base: Id, pick: nat, top: Id)
    requires Sound(w)
  {
    && base in w.defs && !w.defs[base].kind.Interface? && pick < |w.defs[base].embeds|
    && w.defs[base].embeds[pick].ref in w.to && top == Real(w, w.to[w.defs[base].embeds[pick].ref])
  }

  predicate ComesDown(w: World, td: Id, r: Trail)
    requires Sound(w) && td in w.defs
  {
    && Long(r) && r.tops[0] == Real(w, td)
    && (forall i :: 0 <= i < |r.tops| ==> BaseOk(w, r.tops[i], r.bases[i]))
    && (forall i :: 0 <= i < |r.picks| ==> PickOk(w, r.bases[i], r.picks[i], r.tops[i + 1]))
  }

  /** The embedded field is spelled `*T`, or stands for a pointer type. */
  predicate ByPointer(w: World, e: Embed)
    requires Sound(w) && e.ref in w.to
  {
    e.star || w.defs[w.to[e.ref]].kind.Pointer?
  }

  /** The way crosses a pointer: an embedded one, or an anonymous `*T` it comes to. */
  predicate Crosses(w: World, td: Id, r: Trail)
    requires Sound(w) && td in w.defs && ComesDown(w, td, r)
  {
    || (exists i :: 0 <= i < |r.picks| && ByPointer(w, w.defs[r.bases[i]].embeds[r.picks[i]]))
    || (exists i :: 0 <= i < |r.tops| && Anonymous(w, r.tops[i]))
  }

  /** Some interface reached from `n` along embedded elements requires the name. */
  ghost predicate Requires(w: World, n: Id, m: string)
    requires Sound(w) && n in w.defs
  {
    exists k :: Reaches(w, Real(w, n), k) && k in w.defs && m in w.defs[k].reqs
  }

  /** The type has the name itself: an interface requires it; any other type declares it, without
      type parameters, on its value or, behind a pointer, on a pointer to it. */
  ghost predicate Has(w: World, n: Id, m: string, behind: bool)
    requires Sound(w) && n in w.defs
  {
    if w.defs[n].kind.Interface? then Requires(w, n, m)
    else m in w.defs[n].methods && !w.defs[n].methods[m].generic && (behind || !w.defs[n].methods[m].ptrRecv)
  }

  function EndOf(r: Trail): Id
    requires Long(r)
  {
    r.bases[|r.bases| - 1]
  }

  /** The trail from the type of its first field on. */
  function Rest(r: Trail): Trail
    requires Long(r) && r.picks != []
  {
    Trail(r.picks[1..], r.tops[1..], r.bases[1..])
  }

  lemma ComesDownRest(w: World, td: Id, r: Trail)
    requires Sound(w) && td in w.defs && ComesDown(w, td, r) && r.picks != []
    ensures var e := w.defs[r.bases[0]].embeds[r.picks[0]];
      && e.ref in w.to && ComesDown(w, w.to[e.ref], Rest(r))
      && Crosses(w, td, r) == (Anonymous(w, r.tops[0]) || ByPointer(w, e) || Crosses(w, w.to[e.ref], Rest(r)))
  {
    hide Real, ByPointer, Anonymous;
    var q := Rest(r);
    assert PickOk(w, r.bases[0], r.picks[0], r.tops[0 + 1]);
    var e := w.defs[r.bases[0]].embeds[r.picks[0]];
    forall i | 0 <= i < |q.tops| ensures BaseOk(w, q.tops[i], q.bases[i]) {
      assert BaseOk(w, r.tops[i + 1], r.bases[i + 1]);
    }
    forall i | 0 <= i < |q.picks| ensures PickOk(w, q.bases[i], q.picks[i], q.tops[i + 1]) {
      var j := i + 1;
      assert PickOk(w, r.bases[j], r.picks[j], r.tops[j + 1]);
    }
    CrossesRest(w, td, r);
  }

  lemma CrossesRest(w: World, td: Id, r: Trail)
    requires Sound(w) && td in w.defs && ComesDown(w, td, r) && r.picks != []
    requires w.defs[r.bases[0]].embeds[r.picks[0]].ref in w.to
      && ComesDown(w, w.to[w.defs[r.bases[0]].embeds[r.picks[0]].ref], Rest(r))
    ensures var e := w.defs[r.bases[0]].embeds[r.picks[0]];
      Crosses(w, td, r) == (Anonymous(w, r.tops[0]) || ByPointer(w, e) || Crosses(w, w.to[e.ref], Rest(r)))
  {
    hide Real, ByPointer, Anonymous;
    var q := Rest(r);
    var e := w.defs[r.bases[0]].embeds[r.picks[0]];
    if Crosses(w, td, r) && !Anonymous(w, r.tops[0]) && !ByPointer(w, e) {
      if i :| 0 <= i < |r.picks| && ByPointer(w, w.defs[r.bases[i]].embeds[r.picks[i]]) {
        assert ByPointer(w, w.defs[q.bases[i - 1]].embeds[q.picks[i - 1]]);
      } else {
        var i :| 0 <= i < |r.tops| && Anonymous(w, r.tops[i]);
        assert Anonymous(w, q.tops[i - 1]);
      }
    }
    if Crosses(w, w.to[e.ref], q) {
      if i :| 0 <= i < |q.picks| && ByPointer(w, w.defs[q.bases[i]].embeds[q.picks[i]]) {
        assert ByPointer(w, w.defs[r.bases[i + 1]].embeds[r.picks[i + 1]]);
      } else {
        var i :| 0 <= i < |q.tops| && Anonymous(w, q.tops[i]);
        assert Anonymous(w, r.tops[i + 1]);
      }
    }
  }

  /** A trail is a route of the walk, with the types on it, its end and its flag. */
  lemma {:induction false} TrailIsRoute(w: World, td: Id, ptr: bool, r: Trail)
    requires Sound(w) && td in w.defs && ComesDown(w, td, r)
    ensures Long(r) && Route(w, td, r.picks) && Types(w, td, r.picks) == r.tops
    ensures End(w, td, ptr, r.picks) == (EndOf(r), ptr || Crosses(w, td, r))
    decreases |r.picks|
  {
    hide Real;
    assert BaseOk(w, r.tops[0], r.bases[0]);
    if r.picks == [] {
      NoRoute(w, td, ptr);
      assert r.tops == [r.tops[0]];
    } else {
      assert PickOk(w, r.bases[0], r.picks[0], r.tops[0 + 1]);
      ComesDownRest(w, td, r);
      var e := w.defs[r.bases[0]].embeds[r.picks[0]];
      TrailIsRoute(w, w.to[e.ref], Through(w, e, Elem(w, Real(w, td), ptr).1), Rest(r));
      RouteCons(w, td, ptr, r.picks[0], r.picks[1..]);
      assert [r.picks[0]] + r.picks[1..] == r.picks && [r.tops[0]] + r.tops[1..] == r.tops;
    }
  }

  /** And every route has its trail. */
  lemma {:induction false} RouteHasTrail(w: World, td: Id, route: seq<nat>) returns (r: Trail)
    requires Sound(w) && td in w.defs && Route(w, td, route)
    ensures ComesDown(w, td, r) && r.picks == route
    decreases |route|
  {
    hide Real;
    var top := Real(w, td);
    var base := Elem(w, top, false).0;
    if route == [] {
      r := Trail([], [top], [base]);
    } else {
      var e := w.defs[base].embeds[route[0]];
      var q := RouteHasTrail(w, w.to[e.ref], route[1..]);
      r := Trail(route, [top] + q.tops, [base] + q.bases);
      ComesDownCons(w, td, r, q);
    }
  }

  lemma ComesDownCons(w: World, td: Id, r: Trail, q: Trail)
    requires Sound(w) && td in w.defs && Long(r) && r.picks != [] && q == Rest(r) && r.tops[0] == Real(w, td)
    requires BaseOk(w, r.tops[0], r.bases[0]) && PickOk(w, r.bases[0], r.picks[0], r.tops[1])
    requires ComesDown(w, w.to[w.defs[r.bases[0]].embeds[r.picks[0]].ref], q)
    ensures ComesDown(w, td, r)
  {
    hide Real, BaseOk;
    forall i | 0 <= i < |r.tops| ensures BaseOk(w, r.tops[i], r.bases[i]) {
      if i > 0 { assert BaseOk(w, q.tops[i - 1], q.bases[i - 1]); }
    }
    forall i | 0 <= i < |r.picks| ensures PickOk(w, r.bases[i], r.picks[i], r.tops[i + 1]) {
      if i > 0 {
        var j := i - 1;
        assert PickOk(w, q.bases[j], q.picks[j], q.tops[j + 1]);
      }
    }
  }

  lemma HasIff(w: World, n: Id, m: string, behind: bool)
    requires Sound(w) && n in w.defs
    ensures Has(w, n, m, behind) <==> m in Declared(w, n, behind)
  {
    hide Requirements, Real, Reaches;
    RequiredIff(w, n, m);
  }

  /** The trail repeats no type and ends at one that has the name, a pointer being crossed by `ptr` or
      on the way. */
  ghost predicate Promotes(w: World, td: Id, ptr: bool, r: Trail, m: string)
    requires Sound(w) && td in w.defs
  {
    ComesDown(w, td, r) && NoRepeat(r.tops) && Has(w, EndOf(r), m, ptr || Crosses(w, td, r))
  }

  /** The method names of a type are those that some trail without repetition promotes. */
  lemma NamesIff(w: World, td: Id, ptr: bool, m: string)
    requires Sound(w) && td in w.defs
    ensures m in Names(w, td, ptr, {}) <==> exists r :: Promotes(w, td, ptr, r, m)
  {
    hide Real, Requirements, Names, NoRepeat, Types, End, Declared, Route, ComesDown, Has, Crosses;
    if m in Names(w, td, ptr, {}) {
      var route := NameHasRoute(w, td, ptr, {}, m);
      var r := RouteHasTrail(w, td, route);
      TrailIsRoute(w, td, ptr, r);
      HasIff(w, EndOf(r), m, ptr || Crosses(w, td, r));
      assert Promotes(w, td, ptr, r, m);
    }
    if r :| Promotes(w, td, ptr, r, m) {
      TrailIsRoute(w, td, ptr, r);
      HasIff(w, EndOf(r), m, ptr || Crosses(w, td, r));
      assert Offers(w, td, ptr, {}, r.picks, m);
      RouteGivesName(w, td, ptr, {}, r.picks, m);
    }
  }

  /** A pointer behind which the path starts only adds to what it crosses. */
  lemma {:induction false} EndFlag(w: World, td: Id, ptr: bool, route: seq<nat>)
    requires Sound(w) && td in w.defs && Route(w, td, route)
    ensures End(w, td, ptr, route).0 == End(w, td, false, route).0
    ensures End(w, td, ptr, route).1 == (ptr || End(w, td, false, route).1)
    decreases |route|
  {
    hide Real;
    if route != [] {
      var k := Elem(w, Real(w, td), false).0;
      var e := w.defs[k].embeds[route[0]];
      EndFlag(w, w.to[e.ref], Through(w, e, Elem(w, Real(w, td), ptr).1), route[1..]);
      EndFlag(w, w.to[e.ref], Through(w, e, Elem(w, Real(w, td), false).1), route[1..]);
    }
  }

  /** What a value offers, a pointer to it offers too. */
  lemma ValueInPointer(w: World, td: Id)
    requires Sound(w) && td in w.defs
    ensures Names(w, td, false, {}) <= Names(w, td, true, {})
  {
    hide Real, Requirements, Names, End;
    forall m | m in Names(w, td, false, {}) ensures m in Names(w, td, true, {}) {
      var route := NameHasRoute(w, td, false, {}, m);
      EndFlag(w, td, true, route);
      assert Offers(w, td, true, {}, route, m);
      RouteGivesName(w, td, true, {}, route, m);
    }
  }
}
