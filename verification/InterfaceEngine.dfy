/** The walks and caches as the engine runs them: visited sets and cached sets are updated in
    place. */
module InterfaceEngine {
  import opened TypeGraph
  import opened InterfaceWalk
  import opened InterfaceCache

  lemma NodesAdd(a: seq<Id>, b: seq<Id>)
    ensures Nodes(a + b) == Nodes(a) + Nodes(b)
  {
  }

  lemma ReqsAdd(w: World, a: seq<Id>, b: seq<Id>)
    requires Nodes(a) <= w.defs.Keys && Nodes(b) <= w.defs.Keys
    ensures Nodes(a + b) <= w.defs.Keys && ReqsOf(w, a + b) == ReqsOf(w, a) + ReqsOf(w, b)
  {
    NodesAdd(a, b);
  }

  lemma {:induction false} SigsAdd(w: World, a: seq<Id>, b: seq<Id>)
    requires Nodes(a) <= w.defs.Keys && Nodes(b) <= w.defs.Keys
    ensures Nodes(a + b) <= w.defs.Keys && SigsOf(w, a + b) == SigsOf(w, b) + SigsOf(w, a)
  {
    hide SigsOf;
    NodesAdd(a, b);
    if a == [] {
      assert a + b == b;
      assert SigsOf(w, b) + SigsOf(w, []) == SigsOf(w, b) by { NoSigs(w); AddNothing(SigsOf(w, b)); }
    } else {
      assert a[0] in Nodes(a) && Nodes(a[1..]) <= Nodes(a);
      assert (a + b)[1..] == a[1..] + b;
      SigsAdd(w, a[1..], b);
      SigsUnfold(w, a);
      SigsUnfold(w, a + b);
      MergeLater(SigsOf(w, b), SigsOf(w, a[1..]), w.defs[a[0]].sigs);
    }
  }

  lemma AddNothing(m: map<string, Sig>)
    ensures m + map[] == m
  {
  }

  lemma SigsUnfold(w: World, o: seq<Id>)
    requires Nodes(o) <= w.defs.Keys && o != []
    ensures o[0] in w.defs && Nodes(o[1..]) <= w.defs.Keys && SigsOf(w, o) == SigsOf(w, o[1..]) + w.defs[o[0]].sigs
  {
    assert o[0] in Nodes(o) && Nodes(o[1..]) <= Nodes(o);
  }

  lemma SigsFirst(w: World, n: Id, o: seq<Id>)
    requires n in w.defs && Nodes(o) <= w.defs.Keys
    ensures Nodes([n] + o) == {n} + Nodes(o) && SigsOf(w, [n] + o) == SigsOf(w, o) + w.defs[n].sigs
  {
    NodesAdd([n], o);
    assert Nodes([n]) == {n};
    assert ([n] + o)[1..] == o;
  }

  lemma MergeLater(a: map<string, Sig>, b: map<string, Sig>, c: map<string, Sig>)
    ensures a + (b + c) == (a + b) + c
  {
  }

  lemma NoSigs(w: World)
    ensures Nodes([]) == {} && SigsOf(w, []) == map[] && forall m: map<string, Sig> :: map[] + m == m
  {
  }

  /** What is left to visit, and what the visit of all elements amounts to. */
  lemma VisitNext(w: World, refs: seq<Ref>, i: nat, seen: set<Id>)
    requires Sound(w) && i < |refs|
    ensures var rest := VisitAll(w, refs[i..], seen);
      if refs[i] !in w.to then
        rest == (VisitAll(w, refs[i + 1..], seen).0, false)
      else
        var a := Visit(w, w.to[refs[i]], seen);
        var b := VisitAll(w, refs[i + 1..], seen + Nodes(a.0));
        rest == (a.0 + b.0, a.1 && b.1)
  {
    assert refs[i..][1..] == refs[i + 1..];
  }

  /** One walk: the world it reads, the typedefs seen, whether every element resolved. */
  class Walk {
    const w: World
    var seen: set<Id>
    var complete: bool

    constructor (world: World)
      ensures w == world && seen == {} && complete
    {
      w, seen, complete := world, {}, true;
    }

    /** ifaceReqsRec. */
    method Reqs(start: Id) returns (names: set<string>)
      requires Sound(w) && start in w.defs
      modifies this
      ensures names == ReqsOf(w, Visit(w, start, old(seen)).0)
      ensures seen == old(seen) + Nodes(Visit(w, start, old(seen)).0)
      ensures complete == (old(complete) && Visit(w, start, old(seen)).1)
      decreases w.defs.Keys - seen
    {
      hide Real, Visit, VisitAll;
      var td := PeelAlias(w, start);
      VisitUnfold(w, start, seen);
      if td in seen { return {}; }
      seen := seen + {td};
      ghost var all := VisitAll(w, w.defs[td].ifaces, seen);
      ReqsAdd(w, [td], all.0);
      names := w.defs[td].reqs;
      var refs := w.defs[td].ifaces;
      assert refs[0..] == refs;
      for i := 0 to |refs|
        invariant old(seen) + {td} <= seen
        invariant ghost var rest := VisitAll(w, refs[i..], seen);
          && seen + Nodes(rest.0) == old(seen) + {td} + Nodes(all.0)
          && names + ReqsOf(w, rest.0) == w.defs[td].reqs + ReqsOf(w, all.0)
          && (complete && rest.1) == (old(complete) && all.1)
      {
        VisitNext(w, refs, i, seen);
        if refs[i] !in w.to {
          complete := false;
        } else {
          ghost var a := Visit(w, w.to[refs[i]], seen);
          ReqsAdd(w, a.0, VisitAll(w, refs[i + 1..], seen + Nodes(a.0)).0);
          NodesAdd(a.0, VisitAll(w, refs[i + 1..], seen + Nodes(a.0)).0);
          var sub := Reqs(w.to[refs[i]]);
          names := names + sub;
        }
      }
      VisitNone(w, refs[|refs|..], seen);
    }

    /** ifaceSigsOf. */
    method Sigs(start: Id) returns (out: map<string, Sig>)
      requires Sound(w) && start in w.defs
      modifies this
      ensures out == SigsOf(w, Visit(w, start, old(seen)).0)
      ensures seen == old(seen) + Nodes(Visit(w, start, old(seen)).0)
      ensures complete == (old(complete) && Visit(w, start, old(seen)).1)
      decreases w.defs.Keys - seen
    {
      hide Real, Visit, VisitAll, SigsOf, Nodes;
      NoSigs(w);
      var td := PeelAlias(w, start);
      VisitUnfold(w, start, seen);
      if td in seen { return map[]; }
      seen := seen + {td};
      ghost var all := VisitAll(w, w.defs[td].ifaces, seen);
      SigsFirst(w, td, all.0);
      out := w.defs[td].sigs;
      var refs := w.defs[td].ifaces;
      assert refs[0..] == refs;
      for i := 0 to |refs|
        invariant old(seen) + {td} <= seen
        invariant ghost var rest := VisitAll(w, refs[i..], seen);
          && seen + Nodes(rest.0) == old(seen) + {td} + Nodes(all.0)
          && SigsOf(w, rest.0) + out == SigsOf(w, all.0) + w.defs[td].sigs
          && (complete && rest.1) == (old(complete) && all.1)
      {
        VisitNext(w, refs, i, seen);
        if refs[i] !in w.to {
          complete := false;
        } else {
          ghost var a := Visit(w, w.to[refs[i]], seen);
          ghost var b := VisitAll(w, refs[i + 1..], seen + Nodes(a.0)).0;
          SigsAdd(w, a.0, b);
          NodesAdd(a.0, b);
          var sub := Sigs(w.to[refs[i]]);
          MergeLater(SigsOf(w, b), sub, out);
          out := sub + out;
        }
      }
      VisitNone(w, refs[|refs|..], seen);
    }
  }

  lemma VisitUnfold(w: World, td: Id, seen: set<Id>)
    requires Sound(w) && td in w.defs
    ensures Visit(w, td, seen) ==
      if Real(w, td) in seen then ([], true)
      else var r := VisitAll(w, w.defs[Real(w, td)].ifaces, seen + {Real(w, td)}); ([Real(w, td)] + r.0, r.1)
  {
  }

  lemma VisitNone(w: World, refs: seq<Ref>, seen: set<Id>)
    requires Sound(w) && refs == []
    ensures VisitAll(w, refs, seen) == ([], true)
  {
  }

  /** The engine's view of the loaded typedefs and the sets cached on them. */
  class Interfaces {
    var world: World
    var reqs: map<Id, set<string>>
    var sigs: map<Id, map<string, Sig>>

    ghost predicate Settled(td: Id)
      reads this`world
    {
      Sound(world) && td in world.defs && Visit(world, td, {}).1 && NoStuckAlias(world, td)
    }

    /** Every cached set is what the walk would give now, and will be. */
    ghost predicate Right()
      reads this
    {
      && Sound(world)
      && (forall td :: td in reqs ==> Settled(td) && reqs[td] == Requirements(world, td))
      && (forall td :: td in sigs ==> Settled(td) && sigs[td] == Signatures(world, td))
    }

    constructor (w: World)
      requires Sound(w)
      ensures world == w && reqs == map[] && sigs == map[] && Right()
    {
      world, reqs, sigs := w, map[], map[];
    }

    /** More packages load: references resolve that did not. */
    method Load(w: World)
      requires Sound(w) && Sound(world) && Grows(world, w)
      modifies this`world
      ensures world == w && (old(Right()) ==> Right())
    {
      hide Visit, NoStuckAlias, Requirements, Signatures;
      if Right() {
        forall td | td in reqs || td in sigs
          ensures td in world.defs && Requirements(w, td) == Requirements(world, td)
          ensures Signatures(w, td) == Signatures(world, td)
          ensures td in w.defs && Visit(w, td, {}).1 && NoStuckAlias(w, td)
        {
          assert Settled(td);
          SettledForever(world, w, td);
        }
      }
      world := w;
    }

    /** ifaceReqSet: computed once, cached only when every element resolved. Without a waiting
        alias on the way the answer is the current one, cached or not. */
    method IfaceReqSet(td: Id) returns (names: set<string>)
      requires Sound(world) && td in world.defs
      modifies this`reqs
      ensures names == if td in old(reqs) then old(reqs)[td] else Requirements(world, td)
      ensures reqs == if td in old(reqs) || !Visit(world, td, {}).1 then old(reqs) else old(reqs)[td := names]
      ensures old(Right()) && (Visit(world, td, {}).1 ==> NoStuckAlias(world, td))
        ==> Right() && names == Requirements(world, td)
    {
      hide Visit, NoStuckAlias;
      if td in reqs { return reqs[td]; }
      var walk := new Walk(world);
      names := walk.Reqs(td);
      if walk.complete { reqs := reqs[td := names]; }
    }

    /** ifaceSigFuncs, likewise. */
    method IfaceSigs(td: Id) returns (out: map<string, Sig>)
      requires Sound(world) && td in world.defs
      modifies this`sigs
      ensures out == if td in old(sigs) then old(sigs)[td] else Signatures(world, td)
      ensures sigs == if td in old(sigs) || !Visit(world, td, {}).1 then old(sigs) else old(sigs)[td := out]
      ensures old(Right()) && (Visit(world, td, {}).1 ==> NoStuckAlias(world, td))
        ==> Right() && out == Signatures(world, td)
    {
      hide Visit, NoStuckAlias;
      if td in sigs { return sigs[td]; }
      var walk := new Walk(world);
      out := walk.Sigs(td);
      if walk.complete { sigs := sigs[td := out]; }
    }
  }
}
