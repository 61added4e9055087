/** Requirement sets and signature sets are cached when every element resolved. Cached sets stay
    right as resolution grows exactly when no alias on the way was left without its target. */
module InterfaceCache {
  import opened TypeGraph
  import opened InterfaceWalk

  // ---- What growth keeps --------------------------------------------------------------------

  /** Every resolved reference peels to something that is no alias waiting for its target. */
  predicate AllFirm(w: World, refs: seq<Ref>)
    requires Sound(w)
  {
    forall r :: r in refs && r in w.to ==> Firm(w, w.to[r])
  }

  predicate FirmBelow(w: World, s: set<Id>)
    requires Sound(w) && s <= w.defs.Keys
  {
    forall n :: n in s ==> AllFirm(w, w.defs[n].ifaces)
  }

  /** No alias met on the walk from `td` waits for its target. */
  predicate NoStuckAlias(w: World, td: Id)
    requires Sound(w) && td in w.defs
  {
    Firm(w, td) && FirmBelow(w, Nodes(Visit(w, td, {}).0))
  }

  lemma RealKept(w: World, w': World, td: Id)
    requires Sound(w) && Sound(w') && Grows(w, w') && td in w.defs && Firm(w, td)
    ensures Real(w', td) == Real(w, td) && Firm(w', td)
  {
    PeelKept(w, w', td, MAX_HOPS);
  }

  lemma {:induction false} VisitKept(w: World, w': World, td: Id, seen: set<Id>)
    requires Sound(w) && Sound(w') && Grows(w, w') && td in w.defs && Firm(w, td)
    requires Visit(w, td, seen).1 && FirmBelow(w, Nodes(Visit(w, td, seen).0))
    ensures Visit(w', td, seen) == Visit(w, td, seen)
    decreases w.defs.Keys - seen, 0
  {
    hide Real, Firm;
    var n := Real(w, td);
    RealKept(w, w', td);
    if n !in seen {
      var o := VisitAll(w, w.defs[n].ifaces, seen + {n}).0;
      assert Nodes(Visit(w, td, seen).0) == Nodes(o) + {n};
      VisitAllKept(w, w', w.defs[n].ifaces, seen + {n});
    }
  }

  lemma {:induction false} VisitAllKept(w: World, w': World, refs: seq<Ref>, seen: set<Id>)
    requires Sound(w) && Sound(w') && Grows(w, w') && AllFirm(w, refs)
    requires VisitAll(w, refs, seen).1 && FirmBelow(w, Nodes(VisitAll(w, refs, seen).0))
    ensures VisitAll(w', refs, seen) == VisitAll(w, refs, seen)
    decreases w.defs.Keys - seen, 1 + |refs|
  {
    hide Real, Firm;
    if refs != [] && refs[0] in w.to {
      var a := Visit(w, w.to[refs[0]], seen);
      var b := VisitAll(w, refs[1..], seen + Nodes(a.0));
      assert Nodes(VisitAll(w, refs, seen).0) == Nodes(a.0) + Nodes(b.0);
      VisitKept(w, w', w.to[refs[0]], seen);
      VisitAllKept(w, w', refs[1..], seen + Nodes(a.0));
    }
  }

  lemma {:induction false} SigsKept(w: World, w': World, o: seq<Id>)
    requires Grows(w, w') && Nodes(o) <= w.defs.Keys
    ensures Nodes(o) <= w'.defs.Keys && SigsOf(w', o) == SigsOf(w, o)
  {
    if o != [] {
      assert o[0] in Nodes(o) && Nodes(o[1..]) <= Nodes(o);
      SigsKept(w, w', o[1..]);
    }
  }

  /** A complete walk that met no waiting alias gives the same sets ever after. */
  lemma SettledForever(w: World, w': World, td: Id)
    requires Sound(w) && Sound(w') && Grows(w, w') && td in w.defs
    requires Visit(w, td, {}).1 && NoStuckAlias(w, td)
    ensures Requirements(w', td) == Requirements(w, td) && Signatures(w', td) == Signatures(w, td)
    ensures Visit(w', td, {}).1 && NoStuckAlias(w', td)
  {
    hide Real, Firm, Visit, SigsOf;
    var o := Visit(w, td, {}).0;
    VisitKept(w, w', td, {});
    SigsKept(w, w', o);
    assert ReqsOf(w', o) == ReqsOf(w, o);
    RealKept(w, w', td);
    forall n, r | n in Nodes(o) && r in w.defs[n].ifaces && r in w'.to ensures Firm(w', w'.to[r]) {
      VisitComplete(w, td, {});
      assert AllResolve(w, w.defs[n].ifaces) && AllFirm(w, w.defs[n].ifaces);
      RealKept(w, w', w.to[r]);
    }
  }

  // ---- What growth can break ------------------------------------------------------------------

  lemma {:induction false} LongName(s: set<string>) returns (n: nat)
    ensures forall m :: m in s ==> |m| < n
  {
    if s == {} {
      n := 0;
    } else {
      var m :| m in s;
      n := LongName(s - {m});
      if n <= |m| { n := |m| + 1; }
    }
  }

  lemma FreshName(s: set<string>) returns (m: string)
    ensures m !in s
  {
    var n := LongName(s);
    m := seq(n, _ => 'a');
    assert |m| == n;
  }

  lemma {:induction false} LargeId(s: set<Id>) returns (n: nat)
    ensures forall t :: t in s ==> t < n
  {
    if s == {} {
      n := 0;
    } else {
      var t :| t in s;
      var rest := s - {t};
      n := LargeId(rest);
      if n <= t { n := t + 1; }
      forall u | u in s ensures u < n {
        if u != t { assert u in rest; }
      }
    }
  }

  /** `r` comes to resolve to a new interface `f` that requires `m`, with a signature. */
  function Extended(w: World, r: Ref, f: Id, m: string): World {
    World(w.defs[f := Def(Interface, {m}, map[m := 0], [], map[], [])], w.to[r := f])
  }

  predicate IsNew(w: World, r: Ref, f: Id) {
    r !in w.to && f !in w.defs
  }

  lemma ExtendedGrows(w: World, r: Ref, f: Id, m: string)
    requires Sound(w) && IsNew(w, r, f)
    ensures Sound(Extended(w, r, f, m)) && Grows(w, Extended(w, r, f, m))
  {
  }

  /** A peeling either ends where it did or goes on to the new interface. */
  lemma {:induction false} PeelMoves(w: World, r: Ref, f: Id, m: string, td: Id, hops: nat)
    requires Sound(w) && IsNew(w, r, f) && td in w.defs
    ensures Sound(Extended(w, r, f, m))
    ensures Peel(Extended(w, r, f, m), td, hops) in {Peel(w, td, hops), f}
    ensures StuckAt(w, td, hops) == {r} ==> Peel(Extended(w, r, f, m), td, hops) == f
    decreases hops
  {
    ExtendedGrows(w, r, f, m);
    var k := w.defs[td].kind;
    if hops > 0 && k.Alias? && k.target in w.to && w.to[k.target] != td {
      PeelMoves(w, r, f, m, w.to[k.target], hops - 1);
    }
  }

  lemma RealMoves(w: World, r: Ref, f: Id, m: string, td: Id)
    requires Sound(w) && IsNew(w, r, f) && td in w.defs
    ensures Sound(Extended(w, r, f, m)) && Real(Extended(w, r, f, m), td) in {Real(w, td), f}
    ensures StuckAt(w, td, MAX_HOPS) == {r} ==> Real(Extended(w, r, f, m), td) == f
  {
    PeelMoves(w, r, f, m, td, MAX_HOPS);
  }

  lemma RealOfNew(w: World, r: Ref, f: Id, m: string)
    requires Sound(w) && IsNew(w, r, f)
    ensures Sound(Extended(w, r, f, m)) && Real(Extended(w, r, f, m), f) == f
  {
  }

  lemma ReachesStep(w: World, a: Id, b: Id)
    requires Sound(w) && Step(w, a, b) && b in w.defs
    ensures Reaches(w, a, b)
  {
    ReachesSelf(w, b);
    ReachesFront(w, a, b, b);
  }

  lemma {:induction false} ReachesBack(w: World, p: seq<Id>, c: Id)
    requires Sound(w) && Path(w, p) && Step(w, p[|p| - 1], c) && c in w.defs
    ensures Reaches(w, p[0], c)
    decreases |p|
  {
    if |p| == 1 {
      ReachesStep(w, p[0], c);
    } else {
      PathRest(w, p);
      ReachesBack(w, p[1..], c);
      ReachesFront(w, p[0], p[1], c);
    }
  }

  lemma PathRest(w: World, p: seq<Id>)
    requires Sound(w) && Path(w, p) && |p| > 1
    ensures Path(w, p[1..]) && Step(w, p[0], p[1])
  {
    assert Step(w, p[0], p[0 + 1]);
    var q := p[1..];
    forall k | 0 <= k < |q| - 1 ensures Step(w, q[k], q[k + 1]) {
      var j := k + 1;
      assert Step(w, p[j], p[j + 1]);
    }
    if |q| == 1 { assert exists r :: r in w.defs[p[0]].ifaces && r in w.to && Real(w, w.to[r]) == q[0]; }
  }

  /** What was reached still is, unless the new interface is. */
  lemma {:induction false} PathMoves(w: World, r: Ref, f: Id, m: string, p: seq<Id>)
    requires Sound(w) && IsNew(w, r, f) && Path(w, p)
    ensures var w' := Extended(w, r, f, m);
      Sound(w') && (Reaches(w', p[0], p[|p| - 1]) || Reaches(w', p[0], f))
    decreases |p|
  {
    hide Real, Reaches;
    var w' := Extended(w, r, f, m);
    ExtendedGrows(w, r, f, m);
    if |p| == 1 {
      ReachesSelf(w', p[0]);
    } else {
      PathRest(w, p);
      var e :| e in w.defs[p[0]].ifaces && e in w.to && Real(w, w.to[e]) == p[1];
      RealMoves(w, r, f, m, w.to[e]);
      if Real(w', w'.to[e]) == f {
        ReachesStep(w', p[0], f);
      } else {
        PathMoves(w, r, f, m, p[1..]);
        assert Step(w', p[0], p[1]);
        if Reaches(w', p[1], f) { ReachesFront(w', p[0], p[1], f); } else { ReachesFront(w', p[0], p[1], p[|p| - 1]); }
      }
    }
  }

  /** An element of a visited interface leads to the new one. */
  lemma NewIsReached(w: World, r: Ref, f: Id, m: string, td: Id, n: Id, e: Ref)
    requires Sound(w) && IsNew(w, r, f) && td in w.defs && n in Visit(w, td, {}).0 && n in w.defs
    requires e in w.defs[n].ifaces
    requires e == r || (e in w.to && StuckAt(w, w.to[e], MAX_HOPS) == {r})
    ensures var w' := Extended(w, r, f, m); Sound(w') && Reaches(w', Real(w', td), f)
  {
    hide Real, Reaches, Visit, StuckAt;
    var w' := Extended(w, r, f, m);
    ExtendedGrows(w, r, f, m);
    VisitIsReach(w, td, n);
    RealMoves(w, r, f, m, td);
    RealOfNew(w, r, f, m);
    if e in w.to { RealMoves(w, r, f, m, w.to[e]); }
    assert Step(w', n, f);
    if Real(w', td) == f {
      ReachesSelf(w', f);
    } else {
      var p := PathOf(w, Real(w, td), n);
      PathMoves(w, r, f, m, p);
      if Reaches(w', p[0], n) {
        var q := PathOf(w', p[0], n);
        ReachesBack(w', q, f);
      }
    }
  }

  lemma PathOf(w: World, a: Id, b: Id) returns (p: seq<Id>)
    requires Sound(w) && Reaches(w, a, b)
    ensures Path(w, p) && p[0] == a && p[|p| - 1] == b
  {
    p :| Path(w, p) && p[0] == a && p[|p| - 1] == b;
  }

  lemma {:induction false} StuckOne(w: World, td: Id, hops: nat) returns (r: Ref)
    requires Sound(w) && td in w.defs && StuckAt(w, td, hops) != {}
    ensures StuckAt(w, td, hops) == {r} && r !in w.to
    decreases hops
  {
    var k := w.defs[td].kind;
    if k.target in w.to { r := StuckOne(w, w.to[k.target], hops - 1); } else { r := k.target; }
  }

  /** Where a set is not settled, resolving one reference to a new interface adds to it. */
  lemma UnsettledGrows(w: World, td: Id) returns (w': World)
    requires Sound(w) && td in w.defs && !(Visit(w, td, {}).1 && NoStuckAlias(w, td))
    ensures Sound(w') && Grows(w, w')
    ensures Requirements(w', td) != Requirements(w, td) && Signatures(w', td) != Signatures(w, td)
  {
    hide Real, Reaches, Visit, StuckAt, Requirements, SigsOf;
    var f := LargeId(w.defs.Keys);
    var m := FreshName(Requirements(w, td) + Signatures(w, td).Keys);
    var r: Ref;
    if !Firm(w, td) {
      r := StuckOne(w, td, MAX_HOPS);
      w' := Extended(w, r, f, m);
      ExtendedGrows(w, r, f, m);
      RealMoves(w, r, f, m, td);
      ReachesSelf(w', f);
    } else {
      VisitComplete(w, td, {});
      var n, e :| n in Visit(w, td, {}).0 && n in w.defs && e in w.defs[n].ifaces && (e !in w.to || !Firm(w, w.to[e]));
      if e !in w.to {
        r := e;
      } else {
        assert !Firm(w, w.to[e]);
        r := StuckOne(w, w.to[e], MAX_HOPS);
      }
      w' := Extended(w, r, f, m);
      ExtendedGrows(w, r, f, m);
      NewIsReached(w, r, f, m, td, n, e);
    }
    RequiredIff(w', td, m);
    assert f in w'.defs && m in w'.defs[f].reqs;
    VisitIsReach(w', td, f);
    SigsHave(w', Visit(w', td, {}).0, f, m);
  }

  ghost predicate Lasting(w: World, td: Id)
    requires Sound(w) && td in w.defs
  {
    forall w' :: Sound(w') && Grows(w, w') ==> td in w'.defs && Requirements(w', td) == Requirements(w, td)
  }

  ghost predicate SigsLasting(w: World, td: Id)
    requires Sound(w) && td in w.defs
  {
    forall w' :: Sound(w') && Grows(w, w') ==> td in w'.defs && Signatures(w', td) == Signatures(w, td)
  }

  /** A requirement set is right for good exactly when its walk resolved every element and met
      no alias that waits for its target; and so is a signature set. */
  lemma LastingIff(w: World, td: Id)
    requires Sound(w) && td in w.defs
    ensures Lasting(w, td) <==> Visit(w, td, {}).1 && NoStuckAlias(w, td)
    ensures SigsLasting(w, td) <==> Visit(w, td, {}).1 && NoStuckAlias(w, td)
  {
    hide Visit, NoStuckAlias, Requirements, Signatures;
    if Visit(w, td, {}).1 && NoStuckAlias(w, td) {
      forall w' | Sound(w') && Grows(w, w')
        ensures td in w'.defs && Requirements(w', td) == Requirements(w, td)
        ensures Signatures(w', td) == Signatures(w, td)
      {
        SettledForever(w, w', td);
      }
    } else {
      var w' := UnsettledGrows(w, td);
    }
  }
}
