/** The requirement and signature sets of interfaces: a depth-first walk with a visited set,
    cached when every embedded element resolved. */
module InterfaceWalk {
  import opened TypeGraph

  // ---- The walk --------------------------------------------------------------------------

  function Nodes(o: seq<Id>): set<Id> {
    set n | n in o
  }

  /** The interfaces visited from `td` on, in order, and whether every element resolved. */
  function Visit(w: World, td: Id, seen: set<Id>): (r: (seq<Id>, bool))
    requires Sound(w) && td in w.defs
    ensures Nodes(r.0) <= w.defs.Keys
    decreases w.defs.Keys - seen, 0
  {
    var n := Real(w, td);
    if n in seen then ([], true)
    else
      var r := VisitAll(w, w.defs[n].ifaces, seen + {n});
      ([n] + r.0, r.1)
  }

  function VisitAll(w: World, refs: seq<Ref>, seen: set<Id>): (r: (seq<Id>, bool))
    requires Sound(w)
    ensures Nodes(r.0) <= w.defs.Keys
    decreases w.defs.Keys - seen, 1 + |refs|
  {
    if refs == [] then ([], true)
    else if refs[0] !in w.to then (VisitAll(w, refs[1..], seen).0, false)
    else
      var a := Visit(w, w.to[refs[0]], seen);
      var b := VisitAll(w, refs[1..], seen + Nodes(a.0));
      (a.0 + b.0, a.1 && b.1)
  }

  // ---- Reachability -----------------------------------------------------------------------

  predicate Step(w: World, a: Id, b: Id)
    requires Sound(w)
  {
    a in w.defs && exists r :: r in w.defs[a].ifaces && r in w.to && Real(w, w.to[r]) == b
  }

  predicate Path(w: World, p: seq<Id>)
    requires Sound(w)
  {
    |p| > 0 && p[0] in w.defs && forall k :: 0 <= k < |p| - 1 ==> Step(w, p[k], p[k + 1])
  }

  ghost predicate Reaches(w: World, a: Id, b: Id)
    requires Sound(w)
  {
    exists p :: Path(w, p) && p[0] == a && p[|p| - 1] == b
  }

  lemma ReachesSelf(w: World, a: Id)
    requires Sound(w) && a in w.defs
    ensures Reaches(w, a, a)
  {
    var p := [a];
    assert Path(w, p) && p[0] == a && p[|p| - 1] == a;
  }

  lemma ReachesFront(w: World, a: Id, b: Id, c: Id)
    requires Sound(w) && Step(w, a, b) && Reaches(w, b, c)
    ensures Reaches(w, a, c)
  {
    var p :| Path(w, p) && p[0] == b && p[|p| - 1] == c;
    var q := [a] + p;
    assert forall k :: 0 <= k < |q| - 1 ==> q[k + 1] == p[k] && (k > 0 ==> q[k] == p[k - 1]);
    assert Path(w, q) && q[0] == a && q[|q| - 1] == c;
  }

  /** A set that holds `a` and is closed under steps holds everything reached from `a`. */
  lemma {:induction false} ClosedHolds(w: World, t: set<Id>, p: seq<Id>)
    requires Sound(w) && Path(w, p) && p[0] in t && t <= w.defs.Keys && Closes(w, t, t)
    ensures p[|p| - 1] in t
    decreases |p|
  {
    if |p| > 1 {
      assert Step(w, p[0], p[0 + 1]);
      var q := p[1..];
      forall k | 0 <= k < |q| - 1 ensures Step(w, q[k], q[k + 1]) {
        var j := k + 1;
        assert Step(w, p[j], p[j + 1]);
      }
      ClosedHolds(w, t, q);
    }
  }

  /** Every element of an interface in `s` that resolves leads into `t`. */
  predicate Closes(w: World, s: set<Id>, t: set<Id>)
    requires Sound(w) && s <= w.defs.Keys
  {
    forall a, r :: a in s && r in w.defs[a].ifaces && r in w.to ==> Real(w, w.to[r]) in t
  }

  predicate Leads(w: World, refs: seq<Ref>, t: set<Id>)
    requires Sound(w)
  {
    forall r :: r in refs && r in w.to ==> Real(w, w.to[r]) in t
  }

  // ---- The walk visits what is reachable ------------------------------------------------------

  lemma {:induction false} VisitCloses(w: World, td: Id, seen: set<Id>)
    requires Sound(w) && td in w.defs
    ensures var s := Nodes(Visit(w, td, seen).0);
      s !! seen && Real(w, td) in s + seen && Closes(w, s, s + seen)
    decreases w.defs.Keys - seen, 0
  {
    hide Real;
    var n := Real(w, td);
    if n !in seen {
      var refs := w.defs[n].ifaces;
      VisitAllCloses(w, refs, seen + {n});
      var t := Nodes(VisitAll(w, refs, seen + {n}).0);
      assert Nodes(Visit(w, td, seen).0) == t + {n};
    }
  }

  lemma {:induction false} VisitAllCloses(w: World, refs: seq<Ref>, seen: set<Id>)
    requires Sound(w)
    ensures var s := Nodes(VisitAll(w, refs, seen).0);
      s !! seen && Leads(w, refs, s + seen) && Closes(w, s, s + seen)
    decreases w.defs.Keys - seen, 1 + |refs|
  {
    hide Real;
    if refs != [] {
      if refs[0] !in w.to {
        VisitAllCloses(w, refs[1..], seen);
      } else {
        var a := Nodes(Visit(w, w.to[refs[0]], seen).0);
        VisitCloses(w, w.to[refs[0]], seen);
        VisitAllCloses(w, refs[1..], seen + a);
        var b := Nodes(VisitAll(w, refs[1..], seen + a).0);
        assert Nodes(VisitAll(w, refs, seen).0) == a + b;
      }
    }
  }

  lemma {:induction false} VisitReaches(w: World, td: Id, seen: set<Id>, n: Id)
    requires Sound(w) && td in w.defs && n in Visit(w, td, seen).0
    ensures Reaches(w, Real(w, td), n)
    decreases w.defs.Keys - seen, 0
  {
    hide Real, Reaches;
    var a := Real(w, td);
    if n == a {
      ReachesSelf(w, a);
    } else {
      var r := VisitAllReaches(w, w.defs[a].ifaces, seen + {a}, n);
      ReachesFront(w, a, Real(w, w.to[r]), n);
    }
  }

  lemma {:induction false} VisitAllReaches(w: World, refs: seq<Ref>, seen: set<Id>, n: Id) returns (r: Ref)
    requires Sound(w) && n in VisitAll(w, refs, seen).0
    ensures r in refs && r in w.to && Reaches(w, Real(w, w.to[r]), n)
    decreases w.defs.Keys - seen, 1 + |refs|
  {
    hide Real, Reaches;
    if refs[0] !in w.to {
      r := VisitAllReaches(w, refs[1..], seen, n);
    } else {
      var a := Visit(w, w.to[refs[0]], seen);
      if n in a.0 {
        VisitReaches(w, w.to[refs[0]], seen, n);
        r := refs[0];
      } else {
        r := VisitAllReaches(w, refs[1..], seen + Nodes(a.0), n);
      }
    }
  }

  /** Every element resolves. */
  predicate AllResolve(w: World, refs: seq<Ref>) {
    forall r :: r in refs ==> r in w.to
  }

  predicate Complete(w: World, s: set<Id>)
    requires s <= w.defs.Keys
  {
    forall n :: n in s ==> AllResolve(w, w.defs[n].ifaces)
  }

  lemma {:induction false} VisitComplete(w: World, td: Id, seen: set<Id>)
    requires Sound(w) && td in w.defs
    ensures var r := Visit(w, td, seen); r.1 <==> Complete(w, Nodes(r.0))
    decreases w.defs.Keys - seen, 0
  {
    hide Real, AllResolve;
    var n := Real(w, td);
    if n !in seen {
      VisitAllComplete(w, w.defs[n].ifaces, seen + {n});
      assert Nodes(Visit(w, td, seen).0) == Nodes(VisitAll(w, w.defs[n].ifaces, seen + {n}).0) + {n};
    }
  }

  lemma {:induction false} VisitAllComplete(w: World, refs: seq<Ref>, seen: set<Id>)
    requires Sound(w)
    ensures var r := VisitAll(w, refs, seen); r.1 <==> AllResolve(w, refs) && Complete(w, Nodes(r.0))
    decreases w.defs.Keys - seen, 1 + |refs|
  {
    hide Real;
    if refs != [] {
      if refs[0] !in w.to {
        VisitAllComplete(w, refs[1..], seen);
      } else {
        var a := Visit(w, w.to[refs[0]], seen);
        VisitComplete(w, w.to[refs[0]], seen);
        VisitAllComplete(w, refs[1..], seen + Nodes(a.0));
        assert Nodes(VisitAll(w, refs, seen).0) == Nodes(a.0) + Nodes(VisitAll(w, refs[1..], seen + Nodes(a.0)).0);
        assert forall r :: r in refs <==> r == refs[0] || r in refs[1..];
      }
    }
  }

  /** From an empty visited set the walk visits exactly what is reachable. */
  lemma VisitIsReach(w: World, td: Id, n: Id)
    requires Sound(w) && td in w.defs
    ensures n in Visit(w, td, {}).0 <==> Reaches(w, Real(w, td), n)
  {
    hide Real, Visit;
    var s := Nodes(Visit(w, td, {}).0);
    if n in Visit(w, td, {}).0 {
      VisitReaches(w, td, {}, n);
    }
    if Reaches(w, Real(w, td), n) {
      var p :| Path(w, p) && p[0] == Real(w, td) && p[|p| - 1] == n;
      VisitCloses(w, td, {});
      assert s + {} == s;
      ClosedHolds(w, s, p);
    }
  }

  // ---- Requirements and signatures --------------------------------------------------------------

  /** The names the visited interfaces require. */
  function ReqsOf(w: World, o: seq<Id>): (s: set<string>)
    requires Nodes(o) <= w.defs.Keys
  {
    set n, m | n in o && m in w.defs[n].reqs :: m
  }

  /** Their declared signatures; the first visited wins. */
  function SigsOf(w: World, o: seq<Id>): map<string, Sig>
    requires Nodes(o) <= w.defs.Keys
  {
    if o == [] then map[]
    else
      assert o[0] in Nodes(o) && Nodes(o[1..]) <= Nodes(o);
      SigsOf(w, o[1..]) + w.defs[o[0]].sigs
  }

  function Requirements(w: World, td: Id): set<string>
    requires Sound(w) && td in w.defs
  {
    ReqsOf(w, Visit(w, td, {}).0)
  }

  function Signatures(w: World, td: Id): map<string, Sig>
    requires Sound(w) && td in w.defs
  {
    SigsOf(w, Visit(w, td, {}).0)
  }

  /** A name is required exactly when a reachable interface requires it. */
  lemma RequiredIff(w: World, td: Id, m: string)
    requires Sound(w) && td in w.defs
    ensures m in Requirements(w, td) <==> exists n :: Reaches(w, Real(w, td), n) && n in w.defs && m in w.defs[n].reqs
  {
    hide Real, Visit, Reaches;
    if m in Requirements(w, td) {
      var n :| n in Visit(w, td, {}).0 && m in w.defs[n].reqs;
      VisitIsReach(w, td, n);
    }
    if n :| Reaches(w, Real(w, td), n) && n in w.defs && m in w.defs[n].reqs {
      VisitIsReach(w, td, n);
    }
  }

  /** Of the interfaces in order, the first with a signature for the name. */
  lemma {:induction false} SigsOfFirst(w: World, o: seq<Id>, m: string) returns (i: nat)
    requires Nodes(o) <= w.defs.Keys && m in SigsOf(w, o)
    ensures i < |o| && o[i] in w.defs && m in w.defs[o[i]].sigs && SigsOf(w, o)[m] == w.defs[o[i]].sigs[m]
    ensures forall j :: 0 <= j < i ==> o[j] in w.defs && m !in w.defs[o[j]].sigs
    decreases |o|
  {
    assert o[0] in Nodes(o) && Nodes(o[1..]) <= Nodes(o);
    if m in w.defs[o[0]].sigs {
      i := 0;
    } else {
      i := SigsOfFirst(w, o[1..], m);
      i := i + 1;
      forall j | 0 <= j < i ensures o[j] in w.defs && m !in w.defs[o[j]].sigs {
        if j > 0 { assert o[j] == o[1..][j - 1]; }
      }
    }
  }

  lemma {:induction false} SigsHave(w: World, o: seq<Id>, n: Id, m: string)
    requires Nodes(o) <= w.defs.Keys && n in o && n in w.defs && m in w.defs[n].sigs
    ensures m in SigsOf(w, o)
    decreases |o|
  {
    assert o[0] in Nodes(o) && Nodes(o[1..]) <= Nodes(o);
    if o[0] != n { SigsHave(w, o[1..], n, m); }
  }

  /** A reachable interface declares the signature, and it is the queried one's own if that has one. */
  ghost predicate Signed(w: World, td: Id, m: string, sig: Sig)
    requires Sound(w) && td in w.defs
  {
    && (exists n :: Reaches(w, Real(w, td), n) && n in w.defs && m in w.defs[n].sigs && w.defs[n].sigs[m] == sig)
    && (m in w.defs[Real(w, td)].sigs ==> w.defs[Real(w, td)].sigs[m] == sig)
  }

  /** A name has a signature exactly when a reachable interface declares one, and then one such. */
  lemma SignedIff(w: World, td: Id, m: string)
    requires Sound(w) && td in w.defs
    ensures m in Signatures(w, td) <==> exists n :: Reaches(w, Real(w, td), n) && n in w.defs && m in w.defs[n].sigs
    ensures m in Signatures(w, td) ==> Signed(w, td, m, Signatures(w, td)[m])
  {
    hide Reaches, Real, SigsOf, Visit;
    var o := Visit(w, td, {}).0;
    if m in Signatures(w, td) {
      var i := SigsOfFirst(w, o, m);
      VisitIsReach(w, td, o[i]);
      VisitStarts(w, td);
    }
    if n :| Reaches(w, Real(w, td), n) && n in w.defs && m in w.defs[n].sigs {
      VisitIsReach(w, td, n);
      SigsHave(w, o, n, m);
    }
  }

  lemma VisitStarts(w: World, td: Id)
    requires Sound(w) && td in w.defs
    ensures Visit(w, td, {}).0 != [] && Visit(w, td, {}).0[0] == Real(w, td)
  {
    hide Real;
  }
}
