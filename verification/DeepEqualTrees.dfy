/** What equal values look like: unrolled into trees, however deep, they are the same tree. */
module DeepEqualTrees {
  import opened Basics
  import opened ValueGraph
  import opened DeepEqual
  import opened DeepEqualLaws

  /** A value written out: no heap, no sharing. `Cut` stands for what lies deeper. */
  datatype Tree =
    | Cut
    | NilOf(dyn: Option<TypeId>)
    | Scalar(n: int)
    | Odd                                          // a leaf unequal to itself
    | Tagged(typ: TypeId, t: Tree)
    | PointerTo(t: Tree)
    | SliceOf(styp: Option<TypeId>, elems: seq<Tree>)
    | StructOf(ttyp: Option<TypeId>, fields: seq<Tree>)
    | MapOf(mtyp: Option<TypeId>, pairs: map<int, Tree>)

  lemma ChildValid(h: Heap, x: Addr, k: int)
    requires HeapOk(h) && x in h && Child(h[x], k).Some?
    ensures Valid(h, Child(h[x], k).value)
  {
  }

  /** The value as a tree, `d` layers deep. */
  ghost function Unrolled(h: Heap, v: Value, d: nat): Tree
    requires HeapOk(h) && Valid(h, v)
    decreases d, 0
  {
    if d == 0 then Cut
    else match v
      case Nil(dyn) => NilOf(dyn)
      case Leaf(n) => if n.Plain? then Scalar(n.n) else Odd
      case Tag(typ, w) => Tagged(typ, Unrolled(h, w, d - 1))
      case Ref(c) => PointerTo(UnrolledChild(h, c, 0, d - 1))
      case Obj(x) =>
        match h[x]
        case Slice(typ, es) => SliceOf(typ, seq(|es|, k requires 0 <= k < |es| => UnrolledChild(h, x, k, d - 1)))
        case Struct(typ, fs) => StructOf(typ, seq(|fs|, k requires 0 <= k < |fs| => UnrolledChild(h, x, k, d - 1)))
        case Map(typ, ps) => MapOf(typ, map k | k in ps :: UnrolledChild(h, x, k, d - 1))
  }

  ghost function UnrolledChild(h: Heap, x: Addr, k: int, d: nat): Tree
    requires HeapOk(h) && x in h && Child(h[x], k).Some?
    decreases d, 1
  {
    ChildValid(h, x, k);
    Unrolled(h, Child(h[x], k).value, d)
  }

  /** No leaf of the tree is unequal to itself. */
  predicate Regular(t: Tree) {
    match t
    case Odd => false
    case Tagged(_, u) => Regular(u)
    case PointerTo(u) => Regular(u)
    case SliceOf(_, es) => forall k :: 0 <= k < |es| ==> Regular(es[k])
    case StructOf(_, fs) => forall k :: 0 <= k < |fs| ==> Regular(fs[k])
    case MapOf(_, ps) => forall k :: k in ps ==> Regular(ps[k])
    case _ => true
  }

  /** Nothing is cut off. */
  predicate Entire(t: Tree) {
    match t
    case Cut => false
    case Tagged(_, u) => Entire(u)
    case PointerTo(u) => Entire(u)
    case SliceOf(_, es) => forall k :: 0 <= k < |es| ==> Entire(es[k])
    case StructOf(_, fs) => forall k :: 0 <= k < |fs| ==> Entire(fs[k])
    case MapOf(_, ps) => forall k :: k in ps ==> Entire(ps[k])
    case _ => true
  }

  // ---- Related values are the same tree --------------------------------------------------------------

  lemma {:induction false} RelatedTrees(h: Heap, r: set<Pair>, same: bool, a: Value, b: Value, d: nat)
    requires HeapOk(h) && Valid(h, a) && Valid(h, b) && Bisimulation(h, r, same) && Related(h, r, same, a, b)
    ensures Unrolled(h, a, d) == Unrolled(h, b, d)
    ensures !same ==> Regular(Unrolled(h, a, d))
    decreases d, 1
  {
    hide Related, Bisimulation, StepOk;
    if d > 0 {
      if Layer(h, a, b).Down? {
        LayerValid(h, a, b);
        RelatedDown(h, r, same, a, b);
        RelatedTrees(h, r, same, Layer(h, a, b).a, Layer(h, a, b).b, d - 1);
      } else {
        RelatedBare(h, r, same, a, b);
        if a.Obj? && !(same && a == b) { PairTrees(h, r, same, a.addr, b.addr, d); }
      }
    }
  }

  lemma {:induction false} PairTrees(h: Heap, r: set<Pair>, same: bool, x: Addr, y: Addr, d: nat)
    requires HeapOk(h) && Valid(h, Obj(x)) && Valid(h, Obj(y)) && Bisimulation(h, r, same) && (x, y) in r && d > 0
    ensures Unrolled(h, Obj(x), d) == Unrolled(h, Obj(y), d)
    ensures !same ==> Regular(Unrolled(h, Obj(x), d))
    decreases d, 0
  {
    hide Related, Unrolled, UnrolledChild, Regular;
    assert StepOk(h, r, same, (x, y));
    forall k | Child(h[x], k).Some?
      ensures Child(h[y], k).Some? && UnrolledChild(h, x, k, d - 1) == UnrolledChild(h, y, k, d - 1)
      ensures !same ==> Regular(UnrolledChild(h, x, k, d - 1))
    {
      assert ChildRelated(h, r, same, x, y, k);
      ChildIs(h, x, k, d - 1);
      ChildIs(h, y, k, d - 1);
      RelatedTrees(h, r, same, Child(h[x], k).value, Child(h[y], k).value, d - 1);
    }
    SamePlaces(h[x], h[y]);
    NodeTrees(h, x, y, d);
    if !same { NodeRegular(h, x, d); }
  }

  lemma ChildIs(h: Heap, x: Addr, k: int, d: nat)
    requires HeapOk(h) && x in h && Child(h[x], k).Some?
    ensures Valid(h, Child(h[x], k).value) && UnrolledChild(h, x, k, d) == Unrolled(h, Child(h[x], k).value, d)
  {
    hide Unrolled;
  }

  /** The children of a container's tree are the trees of its children. */
  lemma NodeIs(h: Heap, x: Addr, d: nat)
    requires HeapOk(h) && Valid(h, Obj(x)) && d > 0
    ensures var t := Unrolled(h, Obj(x), d);
      match h[x]
      case Slice(typ, es) =>
        && t.SliceOf? && t.styp == typ && |t.elems| == |es|
        && forall k :: 0 <= k < |es| ==> Child(h[x], k).Some? && t.elems[k] == UnrolledChild(h, x, k, d - 1)
      case Struct(typ, fs) =>
        && t.StructOf? && t.ttyp == typ && |t.fields| == |fs|
        && forall k :: 0 <= k < |fs| ==> Child(h[x], k).Some? && t.fields[k] == UnrolledChild(h, x, k, d - 1)
      case Map(typ, ps) =>
        && t.MapOf? && t.mtyp == typ && t.pairs.Keys == ps.Keys
        && forall k :: k in ps ==> Child(h[x], k).Some? && t.pairs[k] == UnrolledChild(h, x, k, d - 1)
  {
    hide UnrolledChild;
    assert h[x].Map? ==> forall k :: k in h[x].pairs ==> Child(h[x], k).Some?;
    assert h[x].Slice? ==> forall k :: 0 <= k < |h[x].elems| ==> Child(h[x], k).Some?;
    assert h[x].Struct? ==> forall k :: 0 <= k < |h[x].fields| ==> Child(h[x], k).Some?;
  }

  lemma SameMap<K, V>(a: map<K, V>, b: map<K, V>)
    requires a.Keys == b.Keys && forall k :: k in a.Keys ==> a[k] == b[k]
    ensures a == b
  {
  }

  lemma NodeTrees(h: Heap, x: Addr, y: Addr, d: nat)
    requires HeapOk(h) && Valid(h, Obj(x)) && Valid(h, Obj(y)) && d > 0 && SameShape(h[x], h[y])
    requires forall k :: Child(h[x], k).Some? <==> Child(h[y], k).Some?
    requires forall k :: Child(h[x], k).Some? && Child(h[y], k).Some? ==>
      UnrolledChild(h, x, k, d - 1) == UnrolledChild(h, y, k, d - 1)
    ensures Unrolled(h, Obj(x), d) == Unrolled(h, Obj(y), d)
  {
    hide Unrolled, UnrolledChild;
    NodeIs(h, x, d);
    NodeIs(h, y, d);
    var s, t := Unrolled(h, Obj(x), d), Unrolled(h, Obj(y), d);
    match h[x]
    case Slice(_, es) => assert s.elems == t.elems;
    case Struct(_, fs) => assert s.fields == t.fields;
    case Map(_, ps) =>
      forall k ensures k in h[x].pairs.Keys <==> k in h[y].pairs.Keys {
        assert k in h[x].pairs <==> Child(h[x], k).Some?;
        assert k in h[y].pairs <==> Child(h[y], k).Some?;
      }
      assert h[x].pairs.Keys == h[y].pairs.Keys;
      forall k | k in s.pairs.Keys ensures k in t.pairs.Keys && s.pairs[k] == t.pairs[k] {
        assert k in h[x].pairs && k in h[y].pairs && Child(h[x], k).Some? && Child(h[y], k).Some?;
      }
      SameMap(s.pairs, t.pairs);
  }

  lemma NodeRegular(h: Heap, x: Addr, d: nat)
    requires HeapOk(h) && Valid(h, Obj(x)) && d > 0
    ensures Regular(Unrolled(h, Obj(x), d)) <==>
      forall k :: Child(h[x], k).Some? ==> Regular(UnrolledChild(h, x, k, d - 1))
  {
    hide Unrolled, UnrolledChild;
    NodeIs(h, x, d);
    var t := Unrolled(h, Obj(x), d);
    if forall k :: Child(h[x], k).Some? ==> Regular(UnrolledChild(h, x, k, d - 1)) {
      match h[x]
      case Slice(_, es) => assert forall k :: 0 <= k < |es| ==> Child(h[x], k).Some? && Regular(t.elems[k]);
      case Struct(_, fs) => assert forall k :: 0 <= k < |fs| ==> Child(h[x], k).Some? && Regular(t.fields[k]);
      case Map(_, ps) => assert forall k :: k in ps ==> Child(h[x], k).Some? && Regular(t.pairs[k]);
    }
    if Regular(t) {
      forall k | Child(h[x], k).Some? ensures Regular(UnrolledChild(h, x, k, d - 1)) {
        assert h[x].Slice? ==> Regular(t.elems[k]);
        assert h[x].Struct? ==> Regular(t.fields[k]);
        assert h[x].Map? ==> Regular(t.pairs[k]);
      }
    }
  }

  // ---- The same tree at every depth is related -----------------------------------------------------------

  ghost predicate SameTrees(h: Heap, a: Value, b: Value)
    requires HeapOk(h) && Valid(h, a) && Valid(h, b)
  {
    forall d: nat :: Unrolled(h, a, d) == Unrolled(h, b, d)
  }

  ghost predicate AllRegular(h: Heap, a: Value)
    requires HeapOk(h) && Valid(h, a)
  {
    forall d: nat :: Regular(Unrolled(h, a, d))
  }

  ghost predicate TreesAgree(h: Heap, a: Value, b: Value)
    requires HeapOk(h) && Valid(h, a) && Valid(h, b)
  {
    SameTrees(h, a, b) && AllRegular(h, a)
  }

  /** The containers of two regions that are the same trees. */
  ghost function Twins(h: Heap, s: set<Addr>, t: set<Addr>): set<Pair>
    requires HeapOk(h)
  {
    set x, y | x in h.Keys && y in h.Keys && x in s && y in t
               && Valid(h, Obj(x)) && Valid(h, Obj(y)) && TreesAgree(h, Obj(x), Obj(y)) :: (x, y)
  }

  lemma LayersAgree(h: Heap, a: Value, b: Value)
    requires HeapOk(h) && Valid(h, a) && Valid(h, b) && TreesAgree(h, a, b)
    ensures !Layer(h, a, b).Differ?
    ensures Layer(h, a, b).Down? ==>
      Valid(h, Layer(h, a, b).a) && Valid(h, Layer(h, a, b).b) && TreesAgree(h, Layer(h, a, b).a, Layer(h, a, b).b)
  {
    assert Unrolled(h, a, 1) == Unrolled(h, b, 1);
    if Layer(h, a, b).Down? {
      LayerValid(h, a, b);
      var c, e := Layer(h, a, b).a, Layer(h, a, b).b;
      forall d: nat ensures Unrolled(h, c, d) == Unrolled(h, e, d) && Regular(Unrolled(h, c, d)) {
        assert Unrolled(h, a, d + 1) == Unrolled(h, b, d + 1) && Regular(Unrolled(h, a, d + 1));
        if a.Ref? {
          ChildIs(h, a.cell, 0, d);
          ChildIs(h, b.cell, 0, d);
        }
      }
    }
  }

  lemma ShapesAgree(h: Heap, x: Addr, y: Addr)
    requires HeapOk(h) && Valid(h, Obj(x)) && Valid(h, Obj(y)) && SameTrees(h, Obj(x), Obj(y))
    ensures SameShape(h[x], h[y]) && forall k :: Child(h[x], k).Some? <==> Child(h[y], k).Some?
  {
    hide UnrolledChild;
    var s, t := Unrolled(h, Obj(x), 1), Unrolled(h, Obj(y), 1);
    assert s == t;
    if h[x].Map? {
      assert s.pairs.Keys == h[x].pairs.Keys && t.pairs.Keys == h[y].pairs.Keys;
      assert |h[x].pairs| == |h[x].pairs.Keys| && |h[y].pairs| == |h[y].pairs.Keys|;
    } else if h[x].Slice? {
      assert |s.elems| == |h[x].elems|;
    } else {
      assert |s.fields| == |h[x].fields|;
    }
  }

  lemma ChildrenAgree(h: Heap, x: Addr, y: Addr, k: int)
    requires HeapOk(h) && Valid(h, Obj(x)) && Valid(h, Obj(y)) && TreesAgree(h, Obj(x), Obj(y))
    requires Child(h[x], k).Some? && Child(h[y], k).Some?
    ensures Valid(h, Child(h[x], k).value) && Valid(h, Child(h[y], k).value)
    ensures TreesAgree(h, Child(h[x], k).value, Child(h[y], k).value)
  {
    hide Unrolled, UnrolledChild, Regular;
    ChildIs(h, x, k, 0);
    ChildIs(h, y, k, 0);
    forall d: nat
      ensures Unrolled(h, Child(h[x], k).value, d) == Unrolled(h, Child(h[y], k).value, d)
      ensures Regular(Unrolled(h, Child(h[x], k).value, d))
    {
      ChildIs(h, x, k, d);
      ChildIs(h, y, k, d);
      assert Unrolled(h, Obj(x), d + 1) == Unrolled(h, Obj(y), d + 1) && Regular(Unrolled(h, Obj(x), d + 1));
      ChildTree(h, x, y, k, d);
      NodeRegular(h, x, d + 1);
    }
  }

  lemma ChildTree(h: Heap, x: Addr, y: Addr, k: int, d: nat)
    requires HeapOk(h) && Valid(h, Obj(x)) && Valid(h, Obj(y)) && Child(h[x], k).Some? && Child(h[y], k).Some?
    requires Unrolled(h, Obj(x), d + 1) == Unrolled(h, Obj(y), d + 1)
    ensures UnrolledChild(h, x, k, d) == UnrolledChild(h, y, k, d)
  {
    hide UnrolledChild;
    var s, t := Unrolled(h, Obj(x), d + 1), Unrolled(h, Obj(y), d + 1);
    match h[x]
    case Slice(_, es) => assert s.elems[k] == t.elems[k];
    case Struct(_, fs) => assert s.fields[k] == t.fields[k];
    case Map(_, ps) => assert s.pairs[k] == t.pairs[k];
  }

  lemma {:induction false} AgreeRelated(h: Heap, s: set<Addr>, t: set<Addr>, a: Value, b: Value, n: nat)
    requires HeapOk(h) && Valid(h, a) && Valid(h, b) && EndsIn(h, a, b, n) && TreesAgree(h, a, b)
    requires Region(h, s) && Region(h, t) && Inside(s, a) && Inside(t, b)
    ensures Related(h, Twins(h, s, t), false, a, b)
    decreases n
  {
    hide Related, Twins, TreesAgree;
    LayersAgree(h, a, b);
    var r := Twins(h, s, t);
    if Layer(h, a, b).Down? {
      if a.Ref? { assert Child(h[a.cell], 0).Some? && Child(h[b.cell], 0).Some?; }
      AgreeRelated(h, s, t, Layer(h, a, b).a, Layer(h, a, b).b, n - 1);
      RelatedDown(h, r, false, a, b);
    } else {
      BareAgree(h, s, t, a, b);
      RelatedBare(h, r, false, a, b);
    }
  }

  lemma BareAgree(h: Heap, s: set<Addr>, t: set<Addr>, a: Value, b: Value)
    requires HeapOk(h) && Valid(h, a) && Valid(h, b) && Layer(h, a, b).Bare? && TreesAgree(h, a, b)
    requires Inside(s, a) && Inside(t, b)
    ensures BareRelated(h, Twins(h, s, t), false, a, b)
  {
    hide UnrolledChild;
    assert Unrolled(h, a, 1) == Unrolled(h, b, 1) && Regular(Unrolled(h, a, 1));
    if a.Obj? && b.Obj? {
      ShapesAgree(h, a.addr, b.addr);
      assert (a.addr, b.addr) in Twins(h, s, t);
    }
  }

  lemma TwinsAreBisimilar(h: Heap, s: set<Addr>, t: set<Addr>)
    requires HeapOk(h) && Region(h, s) && Region(h, t) && EndAcross(h, s, t)
    ensures Bisimulation(h, Twins(h, s, t), false)
  {
    hide Related, Ends, TreesAgree;
    var r := Twins(h, s, t);
    forall p | p in r ensures StepOk(h, r, false, p) {
      var x, y := p.0, p.1;
      assert SameTrees(h, Obj(x), Obj(y)) by { AgreeSame(h, Obj(x), Obj(y)); }
      ShapesAgree(h, x, y);
      forall k | Child(h[x], k).Some? ensures ChildRelated(h, r, false, x, y, k) {
        ChildrenAgree(h, x, y, k);
        var u, v := Child(h[x], k).value, Child(h[y], k).value;
        assert Inside(s, u) && Inside(t, v);
        assert Ends(h, u, v);
        EndsThenRelated(h, s, t, u, v);
      }
    }
  }

  lemma AgreeSame(h: Heap, a: Value, b: Value)
    requires HeapOk(h) && Valid(h, a) && Valid(h, b) && TreesAgree(h, a, b)
    ensures SameTrees(h, a, b)
  {
  }

  lemma EndsThenRelated(h: Heap, s: set<Addr>, t: set<Addr>, a: Value, b: Value)
    requires HeapOk(h) && Valid(h, a) && Valid(h, b) && Ends(h, a, b) && TreesAgree(h, a, b)
    requires Region(h, s) && Region(h, t) && Inside(s, a) && Inside(t, b)
    ensures Related(h, Twins(h, s, t), false, a, b)
  {
    hide Related, Twins, TreesAgree;
    var n: nat :| EndsIn(h, a, b, n);
    AgreeRelated(h, s, t, a, b, n);
  }

  // ---- The theorems ----------------------------------------------------------------------------------------

  /** Without the shortcut two values are equal exactly when, unrolled to any depth, they are the same
      tree and no leaf is unequal to itself. */
  lemma TreesIff(h: Heap, a: Value, b: Value)
    requires HeapOk(h) && Valid(h, a) && Valid(h, b) && ChainsEndFrom(h, a, b)
    ensures Bisimilar(h, false, a, b) <==> TreesAgree(h, a, b)
  {
    hide Related, Region, EndAcross, Unrolled, Regular;
    if Bisimilar(h, false, a, b) {
      var r :| Bisimulation(h, r, false) && Related(h, r, false, a, b);
      forall d: nat ensures Unrolled(h, a, d) == Unrolled(h, b, d) && Regular(Unrolled(h, a, d)) {
        RelatedTrees(h, r, false, a, b, d);
      }
    }
    if TreesAgree(h, a, b) {
      var s, t :| Region(h, s) && Region(h, t) && Inside(s, a) && Inside(t, b) && EndAcross(h, s, t);
      TwinsAreBisimilar(h, s, t);
      assert Ends(h, a, b) by { EndsFrom(h, a, b); }
      EndsThenRelated(h, s, t, a, b);
    }
  }

  /** With it they are the same trees, and values that are the same trees without such a leaf are equal:
      this is the comparison's answer. */
  lemma EqualTrees(h: Heap, a: Value, b: Value)
    requires HeapOk(h) && Valid(h, a) && Valid(h, b) && ChainsEndFrom(h, a, b)
    ensures Bisimilar(h, true, a, b) ==> SameTrees(h, a, b)
    ensures AllRegular(h, a) ==> (Bisimilar(h, true, a, b) <==> SameTrees(h, a, b))
  {
    hide Related, Region, EndAcross, Unrolled, Regular, ChainsEndFrom;
    if Bisimilar(h, true, a, b) {
      var r :| Bisimulation(h, r, true) && Related(h, r, true, a, b);
      forall d: nat ensures Unrolled(h, a, d) == Unrolled(h, b, d) { RelatedTrees(h, r, true, a, b, d); }
    }
    if AllRegular(h, a) && SameTrees(h, a, b) {
      TreesIff(h, a, b);
      PlainIsShortcut(h, a, b);
    }
  }

  // ---- Finite trees -----------------------------------------------------------------------------------------

  /** A tree with nothing cut off is the tree at every greater depth. */
  lemma {:induction false} EntireStays(h: Heap, v: Value, d: nat, e: nat)
    requires HeapOk(h) && Valid(h, v) && Entire(Unrolled(h, v, d)) && d <= e
    ensures Unrolled(h, v, e) == Unrolled(h, v, d)
    decreases d
  {
    match v
    case Tag(_, w) => EntireStays(h, w, d - 1, e - 1);
    case Ref(c) =>
      ChildIs(h, c, 0, d - 1);
      ChildIs(h, c, 0, e - 1);
      EntireStays(h, h[c].v, d - 1, e - 1);
    case Obj(x) =>
      forall k | Child(h[x], k).Some? ensures UnrolledChild(h, x, k, e - 1) == UnrolledChild(h, x, k, d - 1) {
        ChildIs(h, x, k, d - 1);
        ChildIs(h, x, k, e - 1);
        EntireChild(h, x, k, d);
        EntireStays(h, Child(h[x], k).value, d - 1, e - 1);
      }
      NodeDepths(h, x, d, e);
    case _ =>
  }

  lemma EntireChild(h: Heap, x: Addr, k: int, d: nat)
    requires HeapOk(h) && Valid(h, Obj(x)) && d > 0 && Child(h[x], k).Some? && Entire(Unrolled(h, Obj(x), d))
    ensures Entire(UnrolledChild(h, x, k, d - 1))
  {
    hide UnrolledChild;
    var t := Unrolled(h, Obj(x), d);
    match h[x]
    case Slice(_, es) => assert t.elems[k] == UnrolledChild(h, x, k, d - 1);
    case Struct(_, fs) => assert t.fields[k] == UnrolledChild(h, x, k, d - 1);
    case Map(_, ps) => assert t.pairs[k] == UnrolledChild(h, x, k, d - 1);
  }

  lemma NodeDepths(h: Heap, x: Addr, d: nat, e: nat)
    requires HeapOk(h) && Valid(h, Obj(x)) && d > 0 && e > 0
    requires forall k :: Child(h[x], k).Some? ==> UnrolledChild(h, x, k, e - 1) == UnrolledChild(h, x, k, d - 1)
    ensures Unrolled(h, Obj(x), e) == Unrolled(h, Obj(x), d)
  {
    hide Unrolled, UnrolledChild;
    NodeIs(h, x, d);
    NodeIs(h, x, e);
    var s, t := Unrolled(h, Obj(x), e), Unrolled(h, Obj(x), d);
    match h[x]
    case Slice(_, es) =>
      assert forall k :: 0 <= k < |es| ==> Child(h[x], k).Some? && s.elems[k] == t.elems[k];
      assert s.elems == t.elems;
    case Struct(_, fs) =>
      assert forall k :: 0 <= k < |fs| ==> Child(h[x], k).Some? && s.fields[k] == t.fields[k];
      assert s.fields == t.fields;
    case Map(_, ps) =>
      forall k | k in s.pairs.Keys ensures k in t.pairs.Keys && s.pairs[k] == t.pairs[k] {
        assert k in h[x].pairs && Child(h[x], k).Some?;
      }
      SameMap(s.pairs, t.pairs);
  }

  /** Trees that are the same are the same less deep, and free of odd leaves less deep. */
  lemma {:induction false} Shallower(h: Heap, a: Value, b: Value, d: nat)
    requires HeapOk(h) && Valid(h, a) && Valid(h, b) && Unrolled(h, a, d + 1) == Unrolled(h, b, d + 1)
    ensures Unrolled(h, a, d) == Unrolled(h, b, d)
    ensures Regular(Unrolled(h, a, d + 1)) ==> Regular(Unrolled(h, a, d))
    decreases d, 1
  {
    if d > 0 {
      match a
      case Tag(_, w) => Shallower(h, w, b.v, d - 1);
      case Ref(c) =>
        ChildIs(h, c, 0, d);
        ChildIs(h, b.cell, 0, d);
        ChildIs(h, c, 0, d - 1);
        ChildIs(h, b.cell, 0, d - 1);
        Shallower(h, h[c].v, h[b.cell].v, d - 1);
      case Obj(x) => ShallowerNode(h, x, b.addr, d);
      case _ =>
    }
  }

  lemma {:induction false} ShallowerNode(h: Heap, x: Addr, y: Addr, d: nat)
    requires HeapOk(h) && Valid(h, Obj(x)) && Valid(h, Obj(y)) && d > 0
    requires Unrolled(h, Obj(x), d + 1) == Unrolled(h, Obj(y), d + 1)
    ensures Unrolled(h, Obj(x), d) == Unrolled(h, Obj(y), d)
    ensures Regular(Unrolled(h, Obj(x), d + 1)) ==> Regular(Unrolled(h, Obj(x), d))
    decreases d, 0
  {
    hide Unrolled, UnrolledChild, Regular;
    NodeShapes(h, x, y, d + 1);
    NodeRegular(h, x, d + 1);
    NodeRegular(h, x, d);
    forall k | Child(h[x], k).Some?
      ensures UnrolledChild(h, x, k, d - 1) == UnrolledChild(h, y, k, d - 1)
      ensures Regular(UnrolledChild(h, x, k, d)) ==> Regular(UnrolledChild(h, x, k, d - 1))
    {
      ChildTree(h, x, y, k, d);
      ChildIs(h, x, k, d);
      ChildIs(h, y, k, d);
      ChildIs(h, x, k, d - 1);
      ChildIs(h, y, k, d - 1);
      Shallower(h, Child(h[x], k).value, Child(h[y], k).value, d - 1);
    }
    NodeTrees(h, x, y, d);
  }

  lemma NodeShapes(h: Heap, x: Addr, y: Addr, d: nat)
    requires HeapOk(h) && Valid(h, Obj(x)) && Valid(h, Obj(y)) && d > 0
    requires Unrolled(h, Obj(x), d) == Unrolled(h, Obj(y), d)
    ensures SameShape(h[x], h[y]) && forall k :: Child(h[x], k).Some? <==> Child(h[y], k).Some?
  {
    hide UnrolledChild;
    var s, t := Unrolled(h, Obj(x), d), Unrolled(h, Obj(y), d);
    if h[x].Map? {
      assert s.pairs.Keys == h[x].pairs.Keys && t.pairs.Keys == h[y].pairs.Keys;
      assert |h[x].pairs| == |h[x].pairs.Keys| && |h[y].pairs| == |h[y].pairs.Keys|;
    } else if h[x].Slice? {
      assert |s.elems| == |h[x].elems|;
    } else {
      assert |s.fields| == |h[x].fields|;
    }
  }

  lemma {:induction false} AllShallower(h: Heap, a: Value, b: Value, d: nat, e: nat)
    requires HeapOk(h) && Valid(h, a) && Valid(h, b) && Unrolled(h, a, e) == Unrolled(h, b, e) && d <= e
    requires Regular(Unrolled(h, a, e))
    ensures Unrolled(h, a, d) == Unrolled(h, b, d) && Regular(Unrolled(h, a, d))
    decreases e - d
  {
    hide Unrolled, Regular;
    if d < e {
      AllShallower(h, a, b, d + 1, e);
      Shallower(h, a, b, d);
    }
  }

  /** Two values that are finite trees are equal exactly when these are one tree without odd leaves. */
  lemma FiniteTreesIff(h: Heap, a: Value, b: Value, d: nat)
    requires HeapOk(h) && Valid(h, a) && Valid(h, b) && ChainsEndFrom(h, a, b)
    requires Entire(Unrolled(h, a, d)) && Entire(Unrolled(h, b, d))
    ensures Bisimilar(h, false, a, b) <==> Unrolled(h, a, d) == Unrolled(h, b, d) && Regular(Unrolled(h, a, d))
    ensures Regular(Unrolled(h, a, d)) ==> (Bisimilar(h, true, a, b) <==> Unrolled(h, a, d) == Unrolled(h, b, d))
  {
    hide Unrolled, Regular, Entire, ChainsEndFrom, Bisimilar;
    TreesIff(h, a, b);
    EqualTrees(h, a, b);
    if Unrolled(h, a, d) == Unrolled(h, b, d) && Regular(Unrolled(h, a, d)) {
      forall e: nat ensures Unrolled(h, a, e) == Unrolled(h, b, e) && Regular(Unrolled(h, a, e)) {
        if e <= d {
          AllShallower(h, a, b, e, d);
        } else {
          EntireStays(h, a, d, e);
          EntireStays(h, b, d, e);
        }
      }
    }
  }
}
