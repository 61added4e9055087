/** goJSON's walk of a value graph: the containers on the current path are remembered, and
    meeting one of them again emits a cycle marker instead of descending. */
module JsonWalk {
  import opened Basics
  import opened ValueGraph

  /** A struct type's visible members, in order: the key and the field it reads. */
  type Layout = seq<(string, nat)>
  type Layouts = map<TypeId, Layout>

  datatype Tree =
    | JNull
    | JLeaf(native: Native)
    | JObject(members: seq<(string, Tree)>)
    | JList(elems: seq<Tree>)
    | JMap(pairs: map<int, Tree>)
    | JCycle(at: Addr)

  /** Members a struct node shows; a type without a layout shows none. */
  function Shown(ls: Layouts, n: Node): Layout
    requires n.Struct?
  {
    if n.typ.Some? && n.typ.value in ls then Fitting(ls[n.typ.value], |n.fields|) else []
  }

  function Fitting(l: Layout, n: nat): (r: Layout)
    ensures forall i :: 0 <= i < |r| ==> r[i].1 < n
  {
    if l == [] then [] else (if l[0].1 < n then [l[0]] else []) + Fitting(l[1..], n)
  }

  /** The values the walk visits inside a node, by position or key. */
  function Kid(ls: Layouts, n: Node, k: int): (r: Option<Value>)
    ensures r.Some? ==> exists j :: Child(n, j) == r
  {
    if n.Struct? then
      if 0 <= k < |Shown(ls, n)| then
        var i := Shown(ls, n)[k].1;
        assert Child(n, i) == Some(n.fields[i]);
        Some(n.fields[i])
      else None
    else Child(n, k)
  }

  lemma KidValid(h: Heap, ls: Layouts, x: Addr, k: int)
    requires HeapOk(h) && x in h && Kid(ls, h[x], k).Some?
    ensures Valid(h, Kid(ls, h[x], k).value)
  {
    var j :| Child(h[x], j) == Kid(ls, h[x], k);
  }

  /** The node a value leads to once its tags are peeled: pointers and containers do, leaves don't. */
  function Target(v: Value): Option<Addr> {
    match v
    case Tag(_, w) => Target(w)
    case Ref(c) => Some(c)
    case Obj(x) => Some(x)
    case _ => None
  }

  lemma TargetInHeap(h: Heap, v: Value)
    requires Valid(h, v) && Target(v).Some?
    ensures Target(v).value in h
  {
  }

  // ---- The walk ------------------------------------------------------------------------

  function Plain(v: Value): Tree {
    match v
    case Tag(_, w) => Plain(w)
    case Leaf(n) => JLeaf(n)
    case _ => JNull
  }

  function WalkValue(h: Heap, ls: Layouts, v: Value, live: set<Addr>): Tree
    requires HeapOk(h) && Valid(h, v)
    decreases h.Keys - live, 2
  {
    if Target(v).None? then Plain(v)
    else
      TargetInHeap(h, v);
      WalkNode(h, ls, Target(v).value, live)
  }

  function WalkNode(h: Heap, ls: Layouts, x: Addr, live: set<Addr>): Tree
    requires HeapOk(h) && x in h
    decreases h.Keys - live, 1
  {
    if x in live then JCycle(x)
    else
      assert h.Keys - (live + {x}) < h.Keys - live by { assert x in h.Keys - live; }
      match h[x]
      case Cell(v) => (KidValid(h, ls, x, 0); WalkValue(h, ls, v, live + {x}))
      case Slice(_, es) => JList(seq(|es|, i requires 0 <= i < |es| => WalkKid(h, ls, x, i, live + {x})))
      case Map(_, ps) => JMap(map k | k in ps :: WalkKid(h, ls, x, k, live + {x}))
      case Struct(_, _) =>
        var l := Shown(ls, h[x]);
        JObject(seq(|l|, i requires 0 <= i < |l| => (l[i].0, WalkKid(h, ls, x, i, live + {x}))))
  }

  function WalkKid(h: Heap, ls: Layouts, x: Addr, k: int, live: set<Addr>): Tree
    requires HeapOk(h) && x in h && Kid(ls, h[x], k).Some?
    decreases h.Keys - live, 3
  {
    KidValid(h, ls, x, k);
    WalkValue(h, ls, Kid(ls, h[x], k).value, live)
  }

  // ---- Cycle markers -------------------------------------------------------------------

  ghost predicate HasCycle(t: Tree) {
    match t
    case JCycle(_) => true
    case JObject(ms) => exists k :: 0 <= k < |ms| && HasCycle(ms[k].1)
    case JList(es) => exists k :: 0 <= k < |es| && HasCycle(es[k])
    case JMap(ps) => exists k :: k in ps && HasCycle(ps[k])
    case _ => false
  }

  /** A trail is a sequence of nodes the walk can enter one from the other. */
  ghost predicate Trail(h: Heap, ls: Layouts, x: Addr, p: seq<Addr>)
    decreases |p|
  {
    p != [] && p[0] == x && x in h &&
    (|p| == 1 || exists k :: Leads(h, ls, x, k, p[1]) && Trail(h, ls, p[1], p[1..]))
  }

  predicate Leads(h: Heap, ls: Layouts, x: Addr, k: int, y: Addr)
    requires x in h
  {
    Kid(ls, h[x], k).Some? && Target(Kid(ls, h[x], k).value) == Some(y)
  }

  /** The trail returns to a node of `live` or to one of its own. */
  predicate Returns(live: set<Addr>, p: seq<Addr>)
    decreases |p|
  {
    p != [] && (p[0] in live || Returns(live + {p[0]}, p[1..]))
  }

  lemma PlainHasNoCycle(v: Value)
    ensures !HasCycle(Plain(v))
  {
  }

  /** A node off the path carries a marker exactly when one of its kids does. */
  lemma KidCycle(h: Heap, ls: Layouts, x: Addr, live: set<Addr>)
    requires HeapOk(h) && x in h && x !in live
    ensures HasCycle(WalkNode(h, ls, x, live))
       <==> exists k :: Kid(ls, h[x], k).Some? && HasCycle(WalkKid(h, ls, x, k, live + {x}))
  {
    var t, n := WalkNode(h, ls, x, live), h[x];
    if n.Cell? {
      assert Kid(ls, n, 0) == Some(n.v) && WalkKid(h, ls, x, 0, live + {x}) == t;
    }
    if k :| Kid(ls, n, k).Some? && HasCycle(WalkKid(h, ls, x, k, live + {x})) {
      assert n.Struct? ==> t.members[k].1 == WalkKid(h, ls, x, k, live + {x});
      assert n.Slice? ==> t.elems[k] == WalkKid(h, ls, x, k, live + {x});
      assert n.Map? ==> t.pairs[k] == WalkKid(h, ls, x, k, live + {x});
    }
    if HasCycle(t) && !n.Cell? {
      if n.Struct? {
        var k :| 0 <= k < |t.members| && HasCycle(t.members[k].1);
        assert Kid(ls, n, k).Some?;
      } else if n.Slice? {
        var k :| 0 <= k < |t.elems| && HasCycle(t.elems[k]);
        assert Kid(ls, n, k).Some?;
      } else {
        var k :| k in t.pairs && HasCycle(t.pairs[k]);
        assert Kid(ls, n, k).Some?;
      }
    }
  }

  lemma {:induction false} TrailGivesMarker(h: Heap, ls: Layouts, x: Addr, live: set<Addr>, p: seq<Addr>)
    requires HeapOk(h) && Trail(h, ls, x, p) && Returns(live, p)
    ensures HasCycle(WalkNode(h, ls, x, live))
    decreases |p|
  {
    if x !in live {
      var k :| Leads(h, ls, x, k, p[1]) && Trail(h, ls, p[1], p[1..]);
      TrailGivesMarker(h, ls, p[1], live + {x}, p[1..]);
      assert WalkKid(h, ls, x, k, live + {x}) == WalkNode(h, ls, p[1], live + {x});
      KidCycle(h, ls, x, live);
    }
  }

  lemma {:induction false} MarkerGivesTrail(h: Heap, ls: Layouts, x: Addr, live: set<Addr>) returns (p: seq<Addr>)
    requires HeapOk(h) && x in h && HasCycle(WalkNode(h, ls, x, live))
    ensures Trail(h, ls, x, p) && Returns(live, p)
    decreases h.Keys - live
  {
    if x in live {
      p := [x];
    } else {
      KidCycle(h, ls, x, live);
      var k :| Kid(ls, h[x], k).Some? && HasCycle(WalkKid(h, ls, x, k, live + {x}));
      KidValid(h, ls, x, k);
      var v := Kid(ls, h[x], k).value;
      assert HasCycle(WalkValue(h, ls, v, live + {x}));
      PlainHasNoCycle(v);
      TargetInHeap(h, v);
      assert x in h.Keys - live;
      var q := MarkerGivesTrail(h, ls, Target(v).value, live + {x});
      p := [x] + q;
      assert p[1..] == q && Leads(h, ls, x, k, p[1]);
    }
  }

  ghost predicate CycleReachable(h: Heap, ls: Layouts, v: Value) {
    Target(v).Some? && exists p :: Trail(h, ls, Target(v).value, p) && Returns({}, p)
  }

  /** The output holds a cycle marker exactly when some trail from the value enters a
      container or pointer twice. */
  lemma MarkerIffCycle(h: Heap, ls: Layouts, v: Value)
    requires HeapOk(h) && Valid(h, v)
    ensures HasCycle(WalkValue(h, ls, v, {})) <==> CycleReachable(h, ls, v)
  {
    PlainHasNoCycle(v);
    if Target(v).Some? {
      var x := Target(v).value;
      TargetInHeap(h, v);
      if HasCycle(WalkNode(h, ls, x, {})) {
        var p := MarkerGivesTrail(h, ls, x, {});
      }
      if p :| Trail(h, ls, x, p) && Returns({}, p) {
        TrailGivesMarker(h, ls, x, {}, p);
      }
    }
  }

  // ---- The plain unfolding ---------------------------------------------------------------

  /** `t` is the value written out as a tree, sharing and all, within `n` levels. It says
      nothing about paths or visited sets, and has no cycle markers. */
  ghost predicate Unfolds(h: Heap, ls: Layouts, v: Value, t: Tree, n: nat)
    requires HeapOk(h) && Valid(h, v)
    decreases n, 0
  {
    if Target(v).None? then t == Plain(v)
    else
      TargetInHeap(h, v);
      n > 0 && NodeUnfolds(h, ls, Target(v).value, t, n - 1)
  }

  ghost predicate NodeUnfolds(h: Heap, ls: Layouts, x: Addr, t: Tree, n: nat)
    requires HeapOk(h) && x in h
    decreases n, 2
  {
    match h[x]
    case Cell(_) => KidUnfolds(h, ls, x, 0, t, n)
    case Slice(_, es) => t.JList? && |t.elems| == |es| && forall k :: 0 <= k < |es| ==>
      KidUnfolds(h, ls, x, k, t.elems[k], n)
    case Map(_, ps) => t.JMap? && t.pairs.Keys == ps.Keys && forall k :: k in ps ==>
      KidUnfolds(h, ls, x, k, t.pairs[k], n)
    case Struct(_, _) =>
      var l := Shown(ls, h[x]);
      t.JObject? && |t.members| == |l| &&
      forall k :: 0 <= k < |l| ==> t.members[k].0 == l[k].0 && KidUnfolds(h, ls, x, k, t.members[k].1, n)
  }

  ghost predicate KidUnfolds(h: Heap, ls: Layouts, x: Addr, k: int, t: Tree, n: nat)
    requires HeapOk(h) && x in h
    decreases n, 1
  {
    Kid(ls, h[x], k).Some? && (KidValid(h, ls, x, k); Unfolds(h, ls, Kid(ls, h[x], k).value, t, n))
  }

  lemma {:induction false} WalkUnfolds(h: Heap, ls: Layouts, x: Addr, live: set<Addr>)
    requires HeapOk(h) && x in h && !HasCycle(WalkNode(h, ls, x, live))
    ensures NodeUnfolds(h, ls, x, WalkNode(h, ls, x, live), |h.Keys - live|)
    decreases h.Keys - live
  {
    assert x !in live && x in h.Keys - live;
    assert h.Keys - (live + {x}) == h.Keys - live - {x};
    var n := |h.Keys - live|;
    forall k | Kid(ls, h[x], k).Some? ensures KidUnfolds(h, ls, x, k, WalkKid(h, ls, x, k, live + {x}), n) {
      KidCycle(h, ls, x, live);
      KidValid(h, ls, x, k);
      var v := Kid(ls, h[x], k).value;
      assert WalkKid(h, ls, x, k, live + {x}) == WalkValue(h, ls, v, live + {x});
      if Target(v).Some? {
        TargetInHeap(h, v);
        WalkUnfolds(h, ls, Target(v).value, live + {x});
      }
    }
    KidsUnfold(h, ls, x, live, n);
  }

  lemma KidsUnfold(h: Heap, ls: Layouts, x: Addr, live: set<Addr>, n: nat)
    requires HeapOk(h) && x in h && x !in live
    requires forall k :: Kid(ls, h[x], k).Some? ==> KidUnfolds(h, ls, x, k, WalkKid(h, ls, x, k, live + {x}), n)
    ensures NodeUnfolds(h, ls, x, WalkNode(h, ls, x, live), n)
  {
    var nd := h[x];
    assert nd.Cell? ==> Kid(ls, nd, 0) == Some(nd.v) && WalkKid(h, ls, x, 0, live + {x}) == WalkNode(h, ls, x, live);
    assert nd.Slice? ==> forall k :: 0 <= k < |nd.elems| ==> Kid(ls, nd, k).Some?;
    assert nd.Map? ==> forall k :: k in nd.pairs ==> Kid(ls, nd, k).Some?;
    assert nd.Struct? ==> forall k :: 0 <= k < |Shown(ls, nd)| ==> Kid(ls, nd, k).Some?;
  }

  lemma {:induction false} UnfoldingUnique(h: Heap, ls: Layouts, v: Value, t: Tree, u: Tree, n: nat, m: nat)
    requires HeapOk(h) && Valid(h, v) && Unfolds(h, ls, v, t, n) && Unfolds(h, ls, v, u, m)
    ensures t == u
    decreases n, 0
  {
    if Target(v).Some? {
      TargetInHeap(h, v);
      var x := Target(v).value;
      NodeUnfoldingUnique(h, ls, x, t, u, n - 1, m - 1);
    }
  }

  lemma {:induction false} NodeUnfoldingUnique(h: Heap, ls: Layouts, x: Addr, t: Tree, u: Tree, n: nat, m: nat)
    requires HeapOk(h) && x in h && NodeUnfolds(h, ls, x, t, n) && NodeUnfolds(h, ls, x, u, m)
    ensures t == u
    decreases n, 2
  {
    match h[x]
    case Cell(_) =>
      KidUnfoldingUnique(h, ls, x, 0, t, u, n, m);
    case Slice(_, es) =>
      forall k | 0 <= k < |es| ensures t.elems[k] == u.elems[k] {
        KidUnfoldingUnique(h, ls, x, k, t.elems[k], u.elems[k], n, m);
      }
    case Map(_, ps) =>
      forall k | k in ps ensures t.pairs[k] == u.pairs[k] {
        KidUnfoldingUnique(h, ls, x, k, t.pairs[k], u.pairs[k], n, m);
      }
      assert t.pairs == u.pairs;
    case Struct(_, _) =>
      forall k | 0 <= k < |t.members| ensures t.members[k] == u.members[k] {
        KidUnfoldingUnique(h, ls, x, k, t.members[k].1, u.members[k].1, n, m);
      }
  }

  lemma {:induction false} KidUnfoldingUnique(h: Heap, ls: Layouts, x: Addr, k: int, t: Tree, u: Tree, n: nat, m: nat)
    requires HeapOk(h) && x in h && KidUnfolds(h, ls, x, k, t, n) && KidUnfolds(h, ls, x, k, u, m)
    ensures t == u
    decreases n, 1
  {
    KidValid(h, ls, x, k);
    UnfoldingUnique(h, ls, Kid(ls, h[x], k).value, t, u, n, m);
  }

  /** Unfolding along a trail uses up one level a step. */
  lemma {:induction false} Descend(h: Heap, ls: Layouts, x: Addr, p: seq<Addr>, t: Tree, n: nat)
    returns (u: Tree, m: nat)
    requires HeapOk(h) && Trail(h, ls, x, p) && NodeUnfolds(h, ls, x, t, n)
    ensures p[|p|-1] in h && NodeUnfolds(h, ls, p[|p|-1], u, m) && m + |p| - 1 <= n
    decreases |p|
  {
    if |p| == 1 {
      u, m := t, n;
    } else {
      var k :| Leads(h, ls, x, k, p[1]) && Trail(h, ls, p[1], p[1..]);
      var s := KidOf(h, ls, x, t, n, k);
      u, m := Descend(h, ls, p[1], p[1..], s, n - 1);
    }
  }

  lemma KidOf(h: Heap, ls: Layouts, x: Addr, t: Tree, n: nat, k: int) returns (s: Tree)
    requires HeapOk(h) && x in h && NodeUnfolds(h, ls, x, t, n) && Kid(ls, h[x], k).Some?
    ensures KidUnfolds(h, ls, x, k, s, n)
  {
    match h[x]
    case Cell(_) => s := t;
    case Slice(_, _) => s := t.elems[k];
    case Map(_, _) => s := t.pairs[k];
    case Struct(_, _) => s := t.members[k].1;
  }

  lemma {:induction false} LoopNeverUnfolds(h: Heap, ls: Layouts, x: Addr, p: seq<Addr>, t: Tree, n: nat)
    requires HeapOk(h) && Trail(h, ls, x, p) && |p| > 1 && p[|p|-1] == x
    ensures !NodeUnfolds(h, ls, x, t, n)
    decreases n
  {
    if NodeUnfolds(h, ls, x, t, n) {
      var u, m := Descend(h, ls, x, p, t, n);
      LoopNeverUnfolds(h, ls, x, p, u, m);
    }
  }

  lemma {:induction false} SubTrail(h: Heap, ls: Layouts, x: Addr, p: seq<Addr>, i: nat, j: nat)
    requires Trail(h, ls, x, p) && i <= j < |p|
    ensures Trail(h, ls, p[i], p[i..j+1])
    decreases |p|
  {
    if |p| > 1 {
      var k :| Leads(h, ls, x, k, p[1]) && Trail(h, ls, p[1], p[1..]);
      if i > 0 {
        SubTrail(h, ls, p[1], p[1..], i - 1, j - 1);
        assert p[1..][i-1..j] == p[i..j+1];
      } else if j > 0 {
        SubTrail(h, ls, p[1], p[1..], 0, j - 1);
        assert p[0..j+1][1..] == p[1..][0..j];
        assert Leads(h, ls, x, k, p[0..j+1][1]);
      }
    }
  }

  lemma {:induction false} ReturnPoint(live: set<Addr>, p: seq<Addr>) returns (i: int, j: nat)
    requires Returns(live, p)
    ensures -1 <= i < j < |p| || (i == -1 && j < |p|)
    ensures if i == -1 then p[j] in live else 0 <= i < j < |p| && p[i] == p[j]
    decreases |p|
  {
    if p[0] in live {
      i, j := -1, 0;
    } else {
      var a, b := ReturnPoint(live + {p[0]}, p[1..]);
      if a >= 0 {
        i, j := a + 1, b + 1;
      } else if p[1..][b] in live {
        i, j := -1, b + 1;
      } else {
        i, j := 0, b + 1;
      }
    }
  }

  ghost predicate HasUnfolding(h: Heap, ls: Layouts, v: Value)
    requires HeapOk(h) && Valid(h, v)
  {
    exists t, n: nat :: Unfolds(h, ls, v, t, n)
  }

  lemma CyclicHasNoUnfolding(h: Heap, ls: Layouts, v: Value)
    requires HeapOk(h) && Valid(h, v) && CycleReachable(h, ls, v)
    ensures !HasUnfolding(h, ls, v)
  {
    if HasUnfolding(h, ls, v) {
      var t, n: nat :| Unfolds(h, ls, v, t, n);
      var x := Target(v).value;
      var p :| Trail(h, ls, x, p) && Returns({}, p);
      var i, j := ReturnPoint({}, p);
      SubTrail(h, ls, x, p, 0, i);
      TargetInHeap(h, v);
      var u, m := Descend(h, ls, x, p[0..i+1], t, n - 1);
      SubTrail(h, ls, x, p, i, j);
      LoopNeverUnfolds(h, ls, p[i], p[i..j+1], u, m);
    }
  }

  // ---- Written out -------------------------------------------------------------------------

  lemma ChildValid(h: Heap, x: Addr, k: int)
    requires HeapOk(h) && x in h && Child(h[x], k).Some?
    ensures Valid(h, Child(h[x], k).value)
  {
  }

  /** `t` is the value as JSON, at most `n` containers and pointers deep: null for nil, the host value
      of a leaf, tags and pointers looked through, a list of the elements, an object of the entries or
      of the visible fields in their order. */
  ghost predicate WrittenOut(h: Heap, ls: Layouts, v: Value, t: Tree, n: nat)
    requires HeapOk(h) && Valid(h, v)
    decreases n, 0, v
  {
    match v
    case Nil(_) => t == JNull
    case Leaf(m) => t == JLeaf(m)
    case Tag(_, w) => WrittenOut(h, ls, w, t, n)
    case Ref(c) => n > 0 && ChildWritten(h, ls, c, 0, t, n - 1)
    case Obj(x) =>
      n > 0 && match h[x]
        case Slice(_, es) =>
          && t.JList? && |t.elems| == |es|
          && forall k :: 0 <= k < |es| ==> ChildWritten(h, ls, x, k, t.elems[k], n - 1)
        case Map(_, ps) =>
          && t.JMap? && t.pairs.Keys == ps.Keys
          && forall k :: k in ps ==> ChildWritten(h, ls, x, k, t.pairs[k], n - 1)
        case Struct(typ, fs) =>
          var l := if typ.Some? && typ.value in ls then Fitting(ls[typ.value], |fs|) else [];
          && t.JObject? && |t.members| == |l|
          && forall k :: 0 <= k < |l| ==>
               t.members[k].0 == l[k].0 && ChildWritten(h, ls, x, l[k].1, t.members[k].1, n - 1)
  }

  ghost predicate ChildWritten(h: Heap, ls: Layouts, x: Addr, k: int, t: Tree, n: nat)
    requires HeapOk(h) && x in h
    decreases n, 1
  {
    Child(h[x], k).Some? && (ChildValid(h, x, k); WrittenOut(h, ls, Child(h[x], k).value, t, n))
  }

  /** A layout whose fields the struct has is shown as it is; of another the fields that it has, in order. */
  lemma {:induction false} FittingIs(l: Layout, n: nat)
    ensures (forall i :: 0 <= i < |l| ==> l[i].1 < n) ==> Fitting(l, n) == l
    ensures forall m :: m in Fitting(l, n) <==> m in l && m.1 < n
    decreases |l|
  {
    if l != [] {
      FittingIs(l[1..], n);
      assert l == [l[0]] + l[1..];
    }
  }

  lemma {:induction false} WrittenIff(h: Heap, ls: Layouts, v: Value, t: Tree, n: nat)
    requires HeapOk(h) && Valid(h, v)
    ensures WrittenOut(h, ls, v, t, n) <==> Unfolds(h, ls, v, t, n)
    decreases n, 0, v
  {
    hide Shown, Fitting;
    match v
    case Tag(_, w) => WrittenIff(h, ls, w, t, n);
    case Ref(c) => if n > 0 { NodeWritten(h, ls, c, t, n - 1); }
    case Obj(x) => if n > 0 { NodeWritten(h, ls, x, t, n - 1); }
    case _ =>
  }

  lemma {:induction false} NodeWritten(h: Heap, ls: Layouts, x: Addr, t: Tree, n: nat)
    requires HeapOk(h) && x in h
    ensures NodeUnfolds(h, ls, x, t, n) <==>
      if h[x].Cell? then ChildWritten(h, ls, x, 0, t, n) else WrittenOut(h, ls, Obj(x), t, n + 1)
    decreases n, 2
  {
    hide Fitting, ChildWritten, KidUnfolds;
    forall k, u ensures Child(h[x], k).Some? && !h[x].Struct? ==>
      (ChildWritten(h, ls, x, k, u, n) <==> KidUnfolds(h, ls, x, k, u, n))
    {
      if Child(h[x], k).Some? && !h[x].Struct? { KidWritten(h, ls, x, k, k, u, n); }
    }
    if h[x].Struct? {
      var l := Shown(ls, h[x]);
      forall k, u | 0 <= k < |l|
        ensures ChildWritten(h, ls, x, l[k].1, u, n) <==> KidUnfolds(h, ls, x, k, u, n)
      {
        KidWritten(h, ls, x, k, l[k].1, u, n);
      }
    }
    if h[x].Map? { assert forall k :: k in h[x].pairs ==> Child(h[x], k).Some?; }
    if h[x].Slice? { assert forall k :: 0 <= k < |h[x].elems| ==> Child(h[x], k).Some?; }
    if h[x].Cell? { assert Child(h[x], 0).Some?; }
  }

  lemma {:induction false} KidWritten(h: Heap, ls: Layouts, x: Addr, k: int, i: int, t: Tree, n: nat)
    requires HeapOk(h) && x in h && Kid(ls, h[x], k).Some? && Child(h[x], i) == Kid(ls, h[x], k)
    ensures ChildWritten(h, ls, x, i, t, n) <==> KidUnfolds(h, ls, x, k, t, n)
    decreases n, 1
  {
    ChildValid(h, x, i);
    KidValid(h, ls, x, k);
    WrittenIff(h, ls, Child(h[x], i).value, t, n);
  }

  ghost predicate CanBeWritten(h: Heap, ls: Layouts, v: Value)
    requires HeapOk(h) && Valid(h, v)
  {
    exists t, n: nat :: WrittenOut(h, ls, v, t, n)
  }

  /** The walk of an acyclic value is the value written out, in the only way there is; a value can be
      written out at all exactly when no cycle is reachable from it. */
  lemma WalkIsTheUnfolding(h: Heap, ls: Layouts, v: Value)
    requires HeapOk(h) && Valid(h, v)
    ensures CanBeWritten(h, ls, v) <==> !CycleReachable(h, ls, v)
    ensures forall t, n: nat | WrittenOut(h, ls, v, t, n) :: t == WalkValue(h, ls, v, {})
  {
    hide WrittenOut, Unfolds;
    var w := WalkValue(h, ls, v, {});
    MarkerIffCycle(h, ls, v);
    forall t, n: nat ensures WrittenOut(h, ls, v, t, n) <==> Unfolds(h, ls, v, t, n) { WrittenIff(h, ls, v, t, n); }
    if CycleReachable(h, ls, v) {
      CyclicHasNoUnfolding(h, ls, v);
    } else {
      var n := WalkUnfoldsAll(h, ls, v);
      forall t, m: nat | Unfolds(h, ls, v, t, m) ensures t == w { UnfoldingUnique(h, ls, v, t, w, m, n); }
    }
  }

  lemma WalkUnfoldsAll(h: Heap, ls: Layouts, v: Value) returns (n: nat)
    requires HeapOk(h) && Valid(h, v) && !HasCycle(WalkValue(h, ls, v, {}))
    ensures Unfolds(h, ls, v, WalkValue(h, ls, v, {}), n)
  {
    n := |h.Keys - {}| + 1;
    if Target(v).Some? {
      TargetInHeap(h, v);
      WalkUnfolds(h, ls, Target(v).value, {});
    }
  }

  // ---- The walk as the program runs it -----------------------------------------------------

  class Walker {
    const h: Heap
    const ls: Layouts
    var seen: set<Addr>

    constructor (heap: Heap, layouts: Layouts)
      ensures h == heap && ls == layouts && seen == {}
    {
      h, ls, seen := heap, layouts, {};
    }

    /** Marks a node on the current path; true when it is there already. */
    method Seen(x: Addr) returns (again: bool)
      modifies this
      ensures again == (x in old(seen)) && seen == old(seen) + {x}
    {
      again := x in seen;
      seen := seen + {x};
    }

    method GoJSON(v: Value) returns (t: Tree)
      requires HeapOk(h) && Valid(h, v)
      modifies this
      ensures t == WalkValue(h, ls, v, old(seen)) && seen == old(seen)
      decreases h.Keys - seen, 2, v
    {
      match v
      case Nil(_) => return JNull;
      case Leaf(n) => return JLeaf(n);
      case Tag(_, w) => t := GoJSON(w);
      case Ref(c) => t := Enter(c);
      case Obj(x) => t := Enter(x);
    }

    method Enter(x: Addr) returns (t: Tree)
      requires HeapOk(h) && x in h
      modifies this
      ensures t == WalkNode(h, ls, x, old(seen)) && seen == old(seen)
      decreases h.Keys - seen, 1
    {
      var again := Seen(x);
      if again {
        assert seen == old(seen);
        return JCycle(x);
      }
      assert x in h.Keys - old(seen);
      ghost var live := seen;
      match h[x] {
        case Cell(v) =>
          KidValid(h, ls, x, 0);
          t := GoJSON(v);
        case Slice(_, es) =>
          var out := [];
          while |out| < |es|
            invariant seen == live && |out| <= |es|
            invariant forall i :: 0 <= i < |out| ==> out[i] == WalkKid(h, ls, x, i, live)
          {
            KidValid(h, ls, x, |out|);
            var e := GoJSON(es[|out|]);
            out := out + [e];
          }
          t := JList(out);
        case Map(_, ps) =>
          var out: map<int, Tree>, todo := map[], ps.Keys;
          while todo != {}
            invariant seen == live && todo <= ps.Keys && out.Keys == ps.Keys - todo
            invariant forall k :: k in out ==> k in ps && out[k] == WalkKid(h, ls, x, k, live)
            decreases todo
          {
            var k := AnyOf(todo);
            KidValid(h, ls, x, k);
            var e := GoJSON(ps[k]);
            out, todo := out[k := e], todo - {k};
          }
          t := JMap(out);
        case Struct(_, fs) =>
          var l := Shown(ls, h[x]);
          var out := [];
          while |out| < |l|
            invariant seen == live && |out| <= |l|
            invariant forall i :: 0 <= i < |out| ==> out[i] == (l[i].0, WalkKid(h, ls, x, i, live))
          {
            KidValid(h, ls, x, |out|);
            var e := GoJSON(fs[l[|out|].1]);
            out := out + [(l[|out|].0, e)];
          }
          t := JObject(out);
      }
      seen := seen - {x};
      assert seen == old(seen);
    }
  }
}
