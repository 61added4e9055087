/** reflect.DeepEqual over script values. The walk records each pair of containers it
    has met and takes a repeated pair to be equal; here it is proved to terminate on
    every finite heap, cyclic or not, and to decide the greatest bisimulation. */
module DeepEqual {
  import opened ValueGraph

  type Pair = (Addr, Addr)

  // ---- One structural step -------------------------------------------------------

  /** What the peeling loop does next: strip one tag or pointer on both sides, find
      that the layers differ, or stop at two bare values. */
  datatype Peel = Down(a: Value, b: Value) | Differ | Bare

  function Layer(h: Heap, a: Value, b: Value): Peel
    requires Valid(h, a) && Valid(h, b)
  {
    if a.Tag? || b.Tag? then
      if a.Tag? && b.Tag? && a.typ == b.typ then Down(a.v, b.v) else Differ
    else if a.Ref? || b.Ref? then
      if a.Ref? && b.Ref? then Down(h[a.cell].v, h[b.cell].v) else Differ
    else Bare
  }

  lemma LayerValid(h: Heap, a: Value, b: Value)
    requires HeapOk(h) && Valid(h, a) && Valid(h, b) && Layer(h, a, b).Down?
    ensures Valid(h, Layer(h, a, b).a) && Valid(h, Layer(h, a, b).b)
  {
    if a.Ref? {
      assert Child(h[a.cell], 0).Some? && Child(h[b.cell], 0).Some?;
    }
  }

  /** The peeling loop ends within `n` rounds. */
  ghost predicate EndsIn(h: Heap, a: Value, b: Value, n: nat)
    requires HeapOk(h) && Valid(h, a) && Valid(h, b)
    decreases n
  {
    Layer(h, a, b).Down? ==>
      n > 0 && (LayerValid(h, a, b); EndsIn(h, Layer(h, a, b).a, Layer(h, a, b).b, n - 1))
  }

  ghost predicate Ends(h: Heap, a: Value, b: Value)
    requires HeapOk(h) && Valid(h, a) && Valid(h, b)
  {
    exists n: nat :: EndsIn(h, a, b, n)
  }

  /** The nodes a value itself points at are among these. */
  predicate Inside(s: set<Addr>, v: Value) {
    match v
    case Tag(_, w) => Inside(s, w)
    case Ref(c) => c in s
    case Obj(x) => x in s
    case _ => true
  }

  /** Nodes that lead to no others. */
  ghost predicate Region(h: Heap, s: set<Addr>) {
    s <= h.Keys && forall x, k :: x in s && Child(h[x], k).Some? ==> Inside(s, Child(h[x], k).value)
  }

  ghost predicate EndAcross(h: Heap, s: set<Addr>, t: set<Addr>)
    requires HeapOk(h)
  {
    forall a, b :: Valid(h, a) && Valid(h, b) && Inside(s, a) && Inside(t, b) ==> Ends(h, a, b)
  }

  /** The peeling loop ends on every value the one operand leads to against every value the other
      leads to. */
  ghost predicate ChainsEndFrom(h: Heap, a: Value, b: Value)
    requires HeapOk(h) && Valid(h, a) && Valid(h, b)
  {
    exists s, t :: Region(h, s) && Region(h, t) && Inside(s, a) && Inside(t, b) && EndAcross(h, s, t)
  }

  lemma EndsFrom(h: Heap, a: Value, b: Value)
    requires HeapOk(h) && Valid(h, a) && Valid(h, b) && ChainsEndFrom(h, a, b)
    ensures Ends(h, a, b)
  {
  }

  /** One layer down, and into two containers, the condition stays. */
  lemma DownFrom(h: Heap, a: Value, b: Value)
    requires HeapOk(h) && Valid(h, a) && Valid(h, b) && ChainsEndFrom(h, a, b) && Layer(h, a, b).Down?
    ensures Valid(h, Layer(h, a, b).a) && Valid(h, Layer(h, a, b).b)
    ensures ChainsEndFrom(h, Layer(h, a, b).a, Layer(h, a, b).b)
  {
    hide EndAcross;
    LayerValid(h, a, b);
    var s, t :| Region(h, s) && Region(h, t) && Inside(s, a) && Inside(t, b) && EndAcross(h, s, t);
    if a.Ref? { assert Child(h[a.cell], 0).Some? && Child(h[b.cell], 0).Some?; }
  }

  lemma ChildFrom(h: Heap, x: Addr, y: Addr, k: int)
    requires HeapOk(h) && Valid(h, Obj(x)) && Valid(h, Obj(y)) && ChainsEndFrom(h, Obj(x), Obj(y))
    requires Child(h[x], k).Some? && Child(h[y], k).Some?
    ensures ChainsEndFrom(h, Child(h[x], k).value, Child(h[y], k).value)
  {
    hide EndAcross;
    var s, t :| Region(h, s) && Region(h, t) && Inside(s, Obj(x)) && Inside(t, Obj(y)) && EndAcross(h, s, t);
  }

  /** Same kind, same type and same size: what is compared before the contents. */
  predicate SameShape(m: Node, n: Node) {
    match (m, n)
    case (Slice(t, es), Slice(u, fs)) => t == u && |es| == |fs|
    case (Struct(t, es), Struct(u, fs)) => t == u && |es| == |fs|
    case (Map(t, ps), Map(u, qs)) => t == u && |ps| == |qs|
    case _ => false
  }

  /** Two bare values agree if pairs of containers in `r` are taken to be equal. With
      `same`, a container also equals itself without a look at its contents. */
  predicate BareRelated(h: Heap, r: set<Pair>, same: bool, a: Value, b: Value)
    requires Valid(h, a) && Valid(h, b)
  {
    match (a, b)
    case (Nil(t), Nil(u)) => t == u
    case (Leaf(m), Leaf(n)) => m == n && m.Plain?
    case (Obj(x), Obj(y)) => SameShape(h[x], h[y]) && ((same && x == y) || (x, y) in r)
    case _ => false
  }

  ghost predicate RelatedIn(h: Heap, r: set<Pair>, same: bool, a: Value, b: Value, n: nat)
    requires HeapOk(h) && Valid(h, a) && Valid(h, b)
    decreases n
  {
    match Layer(h, a, b)
    case Differ => false
    case Bare => BareRelated(h, r, same, a, b)
    case Down(c, d) => n > 0 && (LayerValid(h, a, b); RelatedIn(h, r, same, c, d, n - 1))
  }

  ghost predicate Related(h: Heap, r: set<Pair>, same: bool, a: Value, b: Value)
    requires HeapOk(h) && Valid(h, a) && Valid(h, b)
  {
    exists n: nat :: RelatedIn(h, r, same, a, b, n)
  }

  /** Both nodes hold a value at `k`, and the two are related. */
  ghost predicate ChildRelated(h: Heap, r: set<Pair>, same: bool, x: Addr, y: Addr, k: int)
    requires HeapOk(h) && x in h && y in h && Child(h[x], k).Some?
  {
    Child(h[y], k).Some? && Related(h, r, same, Child(h[x], k).value, Child(h[y], k).value)
  }

  /** The structural step: two containers agree, given `r`, when they have the same
      shape and every child of the one is related to that of the other. */
  ghost predicate StepOk(h: Heap, r: set<Pair>, same: bool, p: Pair)
    requires HeapOk(h)
  {
    && p.0 in h && p.1 in h && SameShape(h[p.0], h[p.1])
    && forall k :: Child(h[p.0], k).Some? ==> ChildRelated(h, r, same, p.0, p.1, k)
  }

  ghost predicate Bisimulation(h: Heap, r: set<Pair>, same: bool)
    requires HeapOk(h)
  {
    forall p :: p in r ==> StepOk(h, r, same, p)
  }

  /** The greatest bisimulation of the structural step. */
  ghost predicate Bisimilar(h: Heap, same: bool, a: Value, b: Value)
    requires HeapOk(h) && Valid(h, a) && Valid(h, b)
  {
    exists r :: Bisimulation(h, r, same) && Related(h, r, same, a, b)
  }

  // ---- Basic facts -----------------------------------------------------------------

  /** Peeling one layer changes nothing. */
  lemma RelatedDown(h: Heap, r: set<Pair>, same: bool, a: Value, b: Value)
    requires HeapOk(h) && Valid(h, a) && Valid(h, b) && Layer(h, a, b).Down?
    requires Valid(h, Layer(h, a, b).a) && Valid(h, Layer(h, a, b).b)
    ensures Related(h, r, same, a, b) <==> Related(h, r, same, Layer(h, a, b).a, Layer(h, a, b).b)
  {
    var c, d := Layer(h, a, b).a, Layer(h, a, b).b;
    if Related(h, r, same, a, b) {
      var n: nat :| RelatedIn(h, r, same, a, b, n);
      assert RelatedIn(h, r, same, c, d, n - 1);
    }
    if Related(h, r, same, c, d) {
      var n: nat :| RelatedIn(h, r, same, c, d, n);
      assert RelatedIn(h, r, same, a, b, n + 1);
    }
  }

  lemma RelatedBare(h: Heap, r: set<Pair>, same: bool, a: Value, b: Value)
    requires HeapOk(h) && Valid(h, a) && Valid(h, b) && !Layer(h, a, b).Down?
    ensures Related(h, r, same, a, b) <==> Layer(h, a, b).Bare? && BareRelated(h, r, same, a, b)
  {
    if Layer(h, a, b).Bare? && BareRelated(h, r, same, a, b) {
      assert RelatedIn(h, r, same, a, b, 0);
    }
  }

  lemma {:induction false} RelatedInGrows(h: Heap, r: set<Pair>, s: set<Pair>, same: bool, a: Value, b: Value, n: nat)
    requires HeapOk(h) && Valid(h, a) && Valid(h, b) && r <= s && RelatedIn(h, r, same, a, b, n)
    ensures RelatedIn(h, s, same, a, b, n)
    decreases n
  {
    if Layer(h, a, b).Down? {
      LayerValid(h, a, b);
      RelatedInGrows(h, r, s, same, Layer(h, a, b).a, Layer(h, a, b).b, n - 1);
    }
  }

  lemma RelatedGrows(h: Heap, r: set<Pair>, s: set<Pair>, same: bool, a: Value, b: Value)
    requires HeapOk(h) && Valid(h, a) && Valid(h, b) && r <= s && Related(h, r, same, a, b)
    ensures Related(h, s, same, a, b)
  {
    var n: nat :| RelatedIn(h, r, same, a, b, n);
    RelatedInGrows(h, r, s, same, a, b, n);
  }

  lemma StepGrows(h: Heap, r: set<Pair>, s: set<Pair>, same: bool, p: Pair)
    requires HeapOk(h) && r <= s && StepOk(h, r, same, p)
    ensures StepOk(h, s, same, p)
  {
    forall k | Child(h[p.0], k).Some? ensures ChildRelated(h, s, same, p.0, p.1, k) {
      assert ChildRelated(h, r, same, p.0, p.1, k);
      RelatedGrows(h, r, s, same, Child(h[p.0], k).value, Child(h[p.1], k).value);
    }
  }

  /** Containers that are bisimilar and distinct have bisimilar children. */
  lemma BisimilarChild(h: Heap, x: Addr, y: Addr, k: int)
    requires HeapOk(h) && x in h && y in h && !h[x].Cell? && !h[y].Cell? && x != y
    requires Bisimilar(h, true, Obj(x), Obj(y)) && Child(h[x], k).Some?
    ensures Child(h[y], k).Some? && Bisimilar(h, true, Child(h[x], k).value, Child(h[y], k).value)
  {
    var r :| Bisimulation(h, r, true) && Related(h, r, true, Obj(x), Obj(y));
    RelatedBare(h, r, true, Obj(x), Obj(y));
    assert StepOk(h, r, true, (x, y));
    assert ChildRelated(h, r, true, x, y, k);
  }

  // ---- The walk --------------------------------------------------------------------

  ghost function AllPairs(h: Heap): set<Pair> {
    set x, y | x in h.Keys && y in h.Keys :: (x, y)
  }

  class Walk {
    const h: Heap
    var seen: set<Pair>

    constructor (heap: Heap)
      ensures h == heap && seen == {}
    {
      h := heap;
      seen := {};
    }

    /** New entries of `seen` are justified by `seen` itself. */
    ghost predicate Justified(before: set<Pair>, except: set<Pair>)
      requires HeapOk(h)
      reads this
    {
      before <= seen && forall p :: p in seen - before - except ==> StepOk(h, seen, true, p)
    }

    /** The peeling loop: down to two bare values, or to the layer where the two differ. */
    method Peeled(a0: Value, b0: Value) returns (a: Value, b: Value)
      requires HeapOk(h) && Valid(h, a0) && Valid(h, b0) && ChainsEndFrom(h, a0, b0)
      ensures Valid(h, a) && Valid(h, b) && !Layer(h, a, b).Down? && ChainsEndFrom(h, a, b)
      ensures forall s :: Related(h, s, true, a0, b0) <==> Related(h, s, true, a, b)
    {
      hide ChainsEndFrom, Related;
      a, b := a0, b0;
      EndsFrom(h, a, b);
      ghost var n: nat :| EndsIn(h, a, b, n);
      while Layer(h, a, b).Down?
        invariant Valid(h, a) && Valid(h, b) && EndsIn(h, a, b, n) && ChainsEndFrom(h, a, b)
        invariant forall s :: Related(h, s, true, a0, b0) <==> Related(h, s, true, a, b)
        decreases n
      {
        DownFrom(h, a, b);
        forall s ensures Related(h, s, true, a, b) <==> Related(h, s, true, Layer(h, a, b).a, Layer(h, a, b).b) {
          RelatedDown(h, s, true, a, b);
        }
        var next := Layer(h, a, b);
        a, b, n := next.a, next.b, n - 1;
      }
    }

    method DeepEql(a0: Value, b0: Value) returns (r: bool)
      requires HeapOk(h) && Valid(h, a0) && Valid(h, b0) && ChainsEndFrom(h, a0, b0) && seen <= AllPairs(h)
      modifies this
      ensures seen <= AllPairs(h)
      ensures r ==> Justified(old(seen), {}) && Related(h, seen, true, a0, b0)
      ensures !r ==> !Bisimilar(h, true, a0, b0)
      decreases AllPairs(h) - seen, 1
    {
      hide ChainsEndFrom, Related, Bisimulation, StepOk;
      var a, b := Peeled(a0, b0);
      forall s ensures Related(h, s, true, a0, b0) <==> Layer(h, a, b).Bare? && BareRelated(h, s, true, a, b) {
        RelatedBare(h, s, true, a, b);
      }
      if Layer(h, a, b).Differ? {
        return false;
      }
      match a
      case Nil(t) => return b == a;
      case Leaf(m) => return b == a && m.Plain?;
      case Obj(x) =>
        if !b.Obj? || !SameShape(h[x], h[b.addr]) {
          return false;
        }
        if x == b.addr || (x, b.addr) in seen {
          return true;
        }
        r := Contents(x, b.addr);
        assert !r ==> !Bisimilar(h, true, a0, b0) by { PeeledAlike(h, a0, b0, a, b); }
    }

    /** Records the pair and compares the contents in any order. */
    method Contents(x: Addr, y: Addr) returns (r: bool)
      requires HeapOk(h) && seen <= AllPairs(h) && Valid(h, Obj(x)) && Valid(h, Obj(y))
      requires ChainsEndFrom(h, Obj(x), Obj(y))
      requires SameShape(h[x], h[y]) && x != y && (x, y) !in seen
      modifies this
      ensures seen <= AllPairs(h)
      ensures r ==> Justified(old(seen), {}) && (x, y) in seen
      ensures !r ==> !Bisimilar(h, true, Obj(x), Obj(y))
      decreases AllPairs(h) - seen, 0
    {
      hide ChainsEndFrom, Related, Bisimilar;
      seen := seen + {(x, y)};
      var todo := Positions(h[x]);
      while todo != {}
        invariant (x, y) in seen && seen <= AllPairs(h)
        invariant Justified(old(seen), {(x, y)})
        invariant forall k :: Child(h[x], k).Some? && k !in todo ==> ChildRelated(h, seen, true, x, y, k)
        invariant forall k :: k in todo ==> Child(h[x], k).Some?
        decreases todo
      {
        var k := AnyOf(todo);
        ghost var was := seen;
        if Child(h[y], k).None? {
          if Bisimilar(h, true, Obj(x), Obj(y)) { BisimilarChild(h, x, y, k); }
          return false;
        }
        ChildFrom(h, x, y, k);
        var same := DeepEql(Child(h[x], k).value, Child(h[y], k).value);
        if !same {
          if Bisimilar(h, true, Obj(x), Obj(y)) { BisimilarChild(h, x, y, k); }
          return false;
        }
        forall j | Child(h[x], j).Some? && j !in todo ensures ChildRelated(h, seen, true, x, y, j) {
          assert ChildRelated(h, was, true, x, y, j);
          RelatedGrows(h, was, seen, true, Child(h[x], j).value, Child(h[y], j).value);
        }
        forall p | p in was - old(seen) - {(x, y)} ensures StepOk(h, seen, true, p) {
          StepGrows(h, was, seen, true, p);
        }
        todo := todo - {k};
      }
      assert StepOk(h, seen, true, (x, y));
      return true;
    }
  }

  /** Values that are related alike are bisimilar alike. */
  lemma PeeledAlike(h: Heap, a0: Value, b0: Value, a: Value, b: Value)
    requires HeapOk(h) && Valid(h, a0) && Valid(h, b0) && Valid(h, a) && Valid(h, b)
    requires forall s :: Related(h, s, true, a0, b0) <==> Related(h, s, true, a, b)
    ensures Bisimilar(h, true, a0, b0) <==> Bisimilar(h, true, a, b)
  {
    hide Related, Bisimulation;
  }

  /** The whole comparison, from an empty record of pairs. */
  method Equal(h: Heap, a: Value, b: Value) returns (r: bool)
    requires HeapOk(h) && Valid(h, a) && Valid(h, b) && ChainsEndFrom(h, a, b)
    ensures r <==> Bisimilar(h, true, a, b)
  {
    var w := new Walk(h);
    r := w.DeepEql(a, b);
    if r {
      assert Bisimulation(h, w.seen, true);
    }
  }

  // ---- What bisimilarity means -----------------------------------------------------

  /** The containers that cannot be told apart by looking `k` containers deep. */
  ghost function Alike(h: Heap, same: bool, k: nat): set<Pair>
    requires HeapOk(h)
  {
    if k == 0 then AllPairs(h)
    else set p | p in AllPairs(h) && StepOk(h, Alike(h, same, k - 1), same, p)
  }

  lemma {:induction false} BisimulationIsAlike(h: Heap, r: set<Pair>, same: bool, k: nat)
    requires HeapOk(h) && Bisimulation(h, r, same)
    ensures r <= Alike(h, same, k)
  {
    forall p | p in r ensures p in Alike(h, same, k) {
      assert StepOk(h, r, same, p);
      assert p == (p.0, p.1);
      if k > 0 {
        BisimulationIsAlike(h, r, same, k - 1);
        StepGrows(h, r, Alike(h, same, k - 1), same, p);
      }
    }
  }

  /** The containers of the two regions that are alike at every depth. */
  ghost function Limit(h: Heap, same: bool, s: set<Addr>, t: set<Addr>): set<Pair>
    requires HeapOk(h)
  {
    set p | p in AllPairs(h) && p.0 in s && p.1 in t && forall k: nat :: p in Alike(h, same, k)
  }

  lemma {:induction false} RelatedAtLimit(h: Heap, same: bool, s: set<Addr>, t: set<Addr>, a: Value, b: Value, n: nat)
    requires HeapOk(h) && Valid(h, a) && Valid(h, b) && EndsIn(h, a, b, n)
    requires Region(h, s) && Region(h, t) && Inside(s, a) && Inside(t, b)
    requires forall k: nat :: Related(h, Alike(h, same, k), same, a, b)
    ensures Related(h, Limit(h, same, s, t), same, a, b)
    decreases n
  {
    hide Related, Alike;
    var l := Limit(h, same, s, t);
    if Layer(h, a, b).Down? {
      LayerValid(h, a, b);
      var c, d := Layer(h, a, b).a, Layer(h, a, b).b;
      if a.Ref? { assert Child(h[a.cell], 0).Some? && Child(h[b.cell], 0).Some?; }
      forall k: nat ensures Related(h, Alike(h, same, k), same, c, d) {
        RelatedDown(h, Alike(h, same, k), same, a, b);
      }
      RelatedAtLimit(h, same, s, t, c, d, n - 1);
      RelatedDown(h, l, same, a, b);
    } else {
      forall k: nat ensures Layer(h, a, b).Bare? && BareRelated(h, Alike(h, same, k), same, a, b) {
        RelatedBare(h, Alike(h, same, k), same, a, b);
      }
      assert BareRelated(h, Alike(h, same, 0), same, a, b);
      if a.Obj? && !(same && a == b) {
        forall k: nat ensures (a.addr, b.addr) in Alike(h, same, k) {
          assert BareRelated(h, Alike(h, same, k), same, a, b);
        }
      }
      RelatedBare(h, l, same, a, b);
    }
  }

  lemma LimitIsBisimulation(h: Heap, same: bool, s: set<Addr>, t: set<Addr>)
    requires HeapOk(h) && Region(h, s) && Region(h, t) && EndAcross(h, s, t)
    ensures Bisimulation(h, Limit(h, same, s, t), same)
  {
    hide Related, Ends;
    var l := Limit(h, same, s, t);
    forall p | p in l ensures StepOk(h, l, same, p) {
      forall k: nat ensures StepOk(h, Alike(h, same, k), same, p) {
        assert p in Alike(h, same, k + 1);
      }
      assert StepOk(h, Alike(h, same, 0), same, p);
      forall i | Child(h[p.0], i).Some? ensures ChildRelated(h, l, same, p.0, p.1, i) {
        assert ChildRelated(h, Alike(h, same, 0), same, p.0, p.1, i);
        var u, v := Child(h[p.0], i).value, Child(h[p.1], i).value;
        forall k: nat ensures Related(h, Alike(h, same, k), same, u, v) {
          assert ChildRelated(h, Alike(h, same, k), same, p.0, p.1, i);
        }
        LimitHolds(h, same, s, t, u, v);
      }
    }
  }

  lemma LimitHolds(h: Heap, same: bool, s: set<Addr>, t: set<Addr>, a: Value, b: Value)
    requires HeapOk(h) && Region(h, s) && Region(h, t) && EndAcross(h, s, t)
    requires Valid(h, a) && Valid(h, b) && Inside(s, a) && Inside(t, b)
    requires forall k: nat :: Related(h, Alike(h, same, k), same, a, b)
    ensures Related(h, Limit(h, same, s, t), same, a, b)
  {
    hide Related;
    assert Ends(h, a, b);
    var n: nat :| EndsIn(h, a, b, n);
    RelatedAtLimit(h, same, s, t, a, b, n);
  }

  lemma BisimilarIsAlike(h: Heap, same: bool, a: Value, b: Value, k: nat)
    requires HeapOk(h) && Valid(h, a) && Valid(h, b) && Bisimilar(h, same, a, b)
    ensures Related(h, Alike(h, same, k), same, a, b)
  {
    var r :| Bisimulation(h, r, same) && Related(h, r, same, a, b);
    BisimulationIsAlike(h, r, same, k);
    RelatedGrows(h, r, Alike(h, same, k), same, a, b);
  }

  lemma AlikeIsBisimilar(h: Heap, same: bool, a: Value, b: Value)
    requires HeapOk(h) && Valid(h, a) && Valid(h, b) && ChainsEndFrom(h, a, b)
    requires forall k: nat :: Related(h, Alike(h, same, k), same, a, b)
    ensures Bisimilar(h, same, a, b)
  {
    hide Related, Region, EndAcross, Alike;
    var s, t :| Region(h, s) && Region(h, t) && Inside(s, a) && Inside(t, b) && EndAcross(h, s, t);
    LimitIsBisimulation(h, same, s, t);
    LimitHolds(h, same, s, t, a, b);
  }

  ghost predicate Indistinguishable(h: Heap, same: bool, a: Value, b: Value)
    requires HeapOk(h) && Valid(h, a) && Valid(h, b)
  {
    forall k: nat :: Related(h, Alike(h, same, k), same, a, b)
  }

  /** The comparison answers true exactly when no finite inspection, however deep, can
      tell the two values apart. */
  lemma BisimilarIsIndistinguishable(h: Heap, same: bool, a: Value, b: Value)
    requires HeapOk(h) && Valid(h, a) && Valid(h, b) && ChainsEndFrom(h, a, b)
    ensures Bisimilar(h, same, a, b) <==> Indistinguishable(h, same, a, b)
  {
    if Bisimilar(h, same, a, b) {
      forall k: nat ensures Related(h, Alike(h, same, k), same, a, b) {
        BisimilarIsAlike(h, same, a, b, k);
      }
    } else if Indistinguishable(h, same, a, b) {
      AlikeIsBisimilar(h, same, a, b);
    }
  }
}
