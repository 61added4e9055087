/** Laws of the comparison: it is symmetric and transitive, and its identity shortcut
    shows exactly on heaps that hold a value unequal to itself. */
module DeepEqualLaws {
  import opened ValueGraph
  import opened DeepEqual

  // ---- Symmetry ----------------------------------------------------------------------

  ghost function Flip(r: set<Pair>): set<Pair> {
    set p | p in r :: (p.1, p.0)
  }

  lemma {:induction false} RelatedFlip(h: Heap, r: set<Pair>, same: bool, a: Value, b: Value, n: nat)
    requires HeapOk(h) && Valid(h, a) && Valid(h, b) && RelatedIn(h, r, same, a, b, n)
    ensures RelatedIn(h, Flip(r), same, b, a, n)
    decreases n
  {
    if Layer(h, a, b).Down? {
      LayerValid(h, a, b);
      RelatedFlip(h, r, same, Layer(h, a, b).a, Layer(h, a, b).b, n - 1);
    }
  }

  /** Two nodes of the same shape hold values at the same places as soon as the one's
      places are among the other's. */
  lemma SamePlaces(m: Node, n: Node)
    requires SameShape(m, n) && forall k :: Child(m, k).Some? ==> Child(n, k).Some?
    ensures forall k :: Child(n, k).Some? ==> Child(m, k).Some?
  {
    if m.Map? {
      forall k | k in m.pairs.Keys ensures k in n.pairs.Keys {
        assert Child(m, k).Some?;
      }
      SubsetOfSameSize(m.pairs.Keys, n.pairs.Keys);
    }
  }

  lemma SubsetOfSameSize<T>(s: set<T>, t: set<T>)
    requires s <= t && |s| == |t|
    ensures s == t
  {
    assert |t - s| == |t| - |s|;
  }

  lemma Symmetric(h: Heap, same: bool, a: Value, b: Value)
    requires HeapOk(h) && Valid(h, a) && Valid(h, b) && Bisimilar(h, same, a, b)
    ensures Bisimilar(h, same, b, a)
  {
    var r :| Bisimulation(h, r, same) && Related(h, r, same, a, b);
    var f := Flip(r);
    forall q | q in f ensures StepOk(h, f, same, q) {
      var p := (q.1, q.0);
      assert p in r && StepOk(h, r, same, p);
      assert forall k :: Child(h[p.0], k).Some? ==> ChildRelated(h, r, same, p.0, p.1, k);
      SamePlaces(h[p.0], h[p.1]);
      forall k | Child(h[q.0], k).Some? ensures ChildRelated(h, f, same, q.0, q.1, k) {
        assert ChildRelated(h, r, same, p.0, p.1, k);
        var n: nat :| RelatedIn(h, r, same, Child(h[p.0], k).value, Child(h[p.1], k).value, n);
        RelatedFlip(h, r, same, Child(h[p.0], k).value, Child(h[p.1], k).value, n);
      }
    }
    var n: nat :| RelatedIn(h, r, same, a, b, n);
    RelatedFlip(h, r, same, a, b, n);
    assert Bisimulation(h, f, same) && Related(h, f, same, b, a);
  }

  // ---- Transitivity ------------------------------------------------------------------

  ghost function Compose(h: Heap, r: set<Pair>, s: set<Pair>): set<Pair> {
    (set x, z | x in h.Keys && z in h.Keys && Linked(h, r, s, x, z) :: (x, z)) + r + s
  }

  ghost predicate Linked(h: Heap, r: set<Pair>, s: set<Pair>, x: Addr, z: Addr) {
    exists y :: (x, y) in r && (y, z) in s
  }

  lemma {:induction false} RelatedCompose(h: Heap, r: set<Pair>, s: set<Pair>, same: bool, a: Value, b: Value,
      c: Value, n: nat, m: nat)
    requires HeapOk(h) && Valid(h, a) && Valid(h, b) && Valid(h, c)
    requires RelatedIn(h, r, same, a, b, n) && RelatedIn(h, s, same, b, c, m)
    ensures RelatedIn(h, Compose(h, r, s), same, a, c, n)
    decreases n
  {
    if Layer(h, a, b).Down? {
      LayerValid(h, a, b);
      LayerValid(h, b, c);
      RelatedCompose(h, r, s, same, Layer(h, a, b).a, Layer(h, a, b).b, Layer(h, b, c).b, n - 1, m - 1);
    } else if a.Obj? {
      assert (a.addr, b.addr) in r && (b.addr, c.addr) in s ==> Linked(h, r, s, a.addr, c.addr);
    }
  }

  lemma ComposeStep(h: Heap, r: set<Pair>, s: set<Pair>, same: bool, x: Addr, y: Addr, z: Addr)
    requires HeapOk(h) && StepOk(h, r, same, (x, y)) && StepOk(h, s, same, (y, z))
    ensures StepOk(h, Compose(h, r, s), same, (x, z))
  {
    var c := Compose(h, r, s);
    forall k | Child(h[x], k).Some? ensures ChildRelated(h, c, same, x, z, k) {
      assert ChildRelated(h, r, same, x, y, k);
      assert ChildRelated(h, s, same, y, z, k);
      var u, v, w := Child(h[x], k).value, Child(h[y], k).value, Child(h[z], k).value;
      var n: nat :| RelatedIn(h, r, same, u, v, n);
      var m: nat :| RelatedIn(h, s, same, v, w, m);
      RelatedCompose(h, r, s, same, u, v, w, n, m);
    }
  }

  lemma Transitive(h: Heap, same: bool, a: Value, b: Value, c: Value)
    requires HeapOk(h) && Valid(h, a) && Valid(h, b) && Valid(h, c)
    requires Bisimilar(h, same, a, b) && Bisimilar(h, same, b, c)
    ensures Bisimilar(h, same, a, c)
  {
    var r :| Bisimulation(h, r, same) && Related(h, r, same, a, b);
    var s :| Bisimulation(h, s, same) && Related(h, s, same, b, c);
    var t := Compose(h, r, s);
    forall p | p in t ensures StepOk(h, t, same, p) {
      if p in r {
        StepGrows(h, r, t, same, p);
      } else if p in s {
        StepGrows(h, s, t, same, p);
      } else {
        var y :| (p.0, y) in r && (y, p.1) in s;
        ComposeStep(h, r, s, same, p.0, y, p.1);
        assert p == (p.0, p.1);
      }
    }
    var n: nat :| RelatedIn(h, r, same, a, b, n);
    var m: nat :| RelatedIn(h, s, same, b, c, m);
    RelatedCompose(h, r, s, same, a, b, c, n, m);
    assert Bisimulation(h, t, same) && Related(h, t, same, a, c);
  }

  // ---- The identity shortcut -----------------------------------------------------------

  /** Tags and pointers lead from `v` to a value unequal to itself. */
  ghost predicate Poisoned(h: Heap, v: Value, n: nat)
    requires HeapOk(h) && Valid(h, v)
    decreases n
  {
    match v
    case Leaf(m) => m.NotSelf?
    case Tag(_, w) => n > 0 && Poisoned(h, w, n - 1)
    case Ref(c) => n > 0 && (assert Child(h[c], 0).Some?; Poisoned(h, h[c].v, n - 1))
    case _ => false
  }

  /** No slice element, struct field or map value is unequal to itself. */
  ghost predicate Clean(h: Heap)
    requires HeapOk(h)
  {
    forall x, k, n: nat | x in h && !h[x].Cell? && Child(h[x], k).Some? :: !Poisoned(h, Child(h[x], k).value, n)
  }

  /** No two values make the peeling loop run forever. Cycles through containers are
      allowed; a pointer that reaches itself through pointers and tags alone is not. */
  ghost predicate ChainsEnd(h: Heap)
    requires HeapOk(h)
  {
    forall a, b :: Valid(h, a) && Valid(h, b) ==> Ends(h, a, b)
  }

  ghost function Same(h: Heap): set<Pair> {
    set x | x in h.Keys && !h[x].Cell? :: (x, x)
  }

  lemma {:induction false} SelfRelated(h: Heap, r: set<Pair>, v: Value, n: nat)
    requires HeapOk(h) && Valid(h, v) && EndsIn(h, v, v, n) && Same(h) <= r
    requires forall m: nat :: !Poisoned(h, v, m)
    ensures Related(h, r, false, v, v)
    decreases n
  {
    if Layer(h, v, v).Down? {
      LayerValid(h, v, v);
      var w := Layer(h, v, v).a;
      forall m: nat ensures !Poisoned(h, w, m) {
        assert !Poisoned(h, v, m + 1);
      }
      SelfRelated(h, r, w, n - 1);
      RelatedDown(h, r, false, v, v);
    } else {
      assert !Poisoned(h, v, 0);
      assert v.Obj? ==> (v.addr, v.addr) in Same(h);
      RelatedBare(h, r, false, v, v);
    }
  }

  lemma {:induction false} PoisonedUnrelated(h: Heap, r: set<Pair>, same: bool, v: Value, n: nat, m: nat)
    requires HeapOk(h) && Valid(h, v) && Poisoned(h, v, n)
    ensures !RelatedIn(h, r, same, v, v, m)
    decreases n
  {
    if Layer(h, v, v).Down? && m > 0 {
      LayerValid(h, v, v);
      PoisonedUnrelated(h, r, same, Layer(h, v, v).a, n - 1, m - 1);
    }
  }

  /** The identity shortcut can be traded for pairs in the relation, and back. */
  lemma {:induction false} ShortcutIn(h: Heap, r: set<Pair>, s: set<Pair>, a: Value, b: Value, n: nat)
    requires HeapOk(h) && Valid(h, a) && Valid(h, b)
    ensures r + Same(h) <= s && RelatedIn(h, r, true, a, b, n) ==> RelatedIn(h, s, false, a, b, n)
    ensures RelatedIn(h, r, false, a, b, n) ==> RelatedIn(h, r, true, a, b, n)
    decreases n
  {
    if Layer(h, a, b).Down? && n > 0 {
      LayerValid(h, a, b);
      ShortcutIn(h, r, s, Layer(h, a, b).a, Layer(h, a, b).b, n - 1);
    } else if a.Obj? && a == b {
      assert (a.addr, a.addr) in Same(h);
    }
  }

  lemma PlainIsShortcut(h: Heap, a: Value, b: Value)
    requires HeapOk(h) && Valid(h, a) && Valid(h, b) && Bisimilar(h, false, a, b)
    ensures Bisimilar(h, true, a, b)
  {
    var r :| Bisimulation(h, r, false) && Related(h, r, false, a, b);
    forall p | p in r ensures StepOk(h, r, true, p) {
      assert StepOk(h, r, false, p);
      forall k | Child(h[p.0], k).Some? ensures ChildRelated(h, r, true, p.0, p.1, k) {
        assert ChildRelated(h, r, false, p.0, p.1, k);
        var u, v := Child(h[p.0], k).value, Child(h[p.1], k).value;
        var n: nat :| RelatedIn(h, r, false, u, v, n);
        ShortcutIn(h, r, r, u, v, n);
      }
    }
    var n: nat :| RelatedIn(h, r, false, a, b, n);
    ShortcutIn(h, r, r, a, b, n);
    assert Bisimulation(h, r, true) && Related(h, r, true, a, b);
  }

  lemma ShortcutIsPlain(h: Heap, a: Value, b: Value)
    requires HeapOk(h) && ChainsEnd(h) && Clean(h) && Valid(h, a) && Valid(h, b) && Bisimilar(h, true, a, b)
    ensures Bisimilar(h, false, a, b)
  {
    var r :| Bisimulation(h, r, true) && Related(h, r, true, a, b);
    var s := r + Same(h);
    forall p | p in s ensures StepOk(h, s, false, p) {
      assert p in r ==> StepOk(h, r, true, p);
      forall k | Child(h[p.0], k).Some? ensures ChildRelated(h, s, false, p.0, p.1, k) {
        var u := Child(h[p.0], k).value;
        if p in r {
          assert ChildRelated(h, r, true, p.0, p.1, k);
          var v := Child(h[p.1], k).value;
          var n: nat :| RelatedIn(h, r, true, u, v, n);
          ShortcutIn(h, r, s, u, v, n);
        } else {
          assert Ends(h, u, u);
          var n: nat :| EndsIn(h, u, u, n);
          SelfRelated(h, s, u, n);
        }
      }
    }
    var n: nat :| RelatedIn(h, r, true, a, b, n);
    ShortcutIn(h, r, s, a, b, n);
    assert Bisimulation(h, s, false) && Related(h, s, false, a, b);
  }

  /** A container holding a value unequal to itself equals itself only by the shortcut. */
  lemma PoisonShows(h: Heap, x: Addr, k: int, n: nat)
    requires HeapOk(h) && x in h && !h[x].Cell? && Child(h[x], k).Some? && Poisoned(h, Child(h[x], k).value, n)
    ensures Bisimilar(h, true, Obj(x), Obj(x)) && !Bisimilar(h, false, Obj(x), Obj(x))
  {
    RelatedBare(h, {}, true, Obj(x), Obj(x));
    assert Bisimulation(h, {}, true) && Related(h, {}, true, Obj(x), Obj(x));
    if Bisimilar(h, false, Obj(x), Obj(x)) {
      var r :| Bisimulation(h, r, false) && Related(h, r, false, Obj(x), Obj(x));
      RelatedBare(h, r, false, Obj(x), Obj(x));
      assert StepOk(h, r, false, (x, x));
      assert ChildRelated(h, r, false, x, x, k);
      var v := Child(h[x], k).value;
      var m: nat :| RelatedIn(h, r, false, v, v, m);
      PoisonedUnrelated(h, r, false, v, n, m);
    }
  }

  ghost predicate ShortcutInvisible(h: Heap)
    requires HeapOk(h)
  {
    forall a, b | Valid(h, a) && Valid(h, b) :: Bisimilar(h, true, a, b) <==> Bisimilar(h, false, a, b)
  }

  /** Comparing by identity first is sound exactly when no container holds a value that is
      unequal to itself. */
  lemma ShortcutInvisibleIffClean(h: Heap)
    requires HeapOk(h) && ChainsEnd(h)
    ensures ShortcutInvisible(h) <==> Clean(h)
  {
    if Clean(h) {
      forall a, b | Valid(h, a) && Valid(h, b) ensures Bisimilar(h, true, a, b) <==> Bisimilar(h, false, a, b) {
        if Bisimilar(h, true, a, b) { ShortcutIsPlain(h, a, b); }
        if Bisimilar(h, false, a, b) { PlainIsShortcut(h, a, b); }
      }
    } else {
      var x, k, n: nat :| x in h && !h[x].Cell? && Child(h[x], k).Some? && Poisoned(h, Child(h[x], k).value, n);
      PoisonShows(h, x, k, n);
      assert Valid(h, Obj(x));
    }
  }

  // ---- Why pointer chains must end -----------------------------------------------------

  /** A pointer to itself, the one shape the peeling loop cannot leave. */
  lemma {:induction false} SelfPointerNeverEnds(h: Heap, c: Addr, n: nat)
    requires HeapOk(h) && c in h && h[c] == Cell(Ref(c))
    ensures !EndsIn(h, Ref(c), Ref(c), n)
    decreases n
  {
    if n > 0 {
      SelfPointerNeverEnds(h, c, n - 1);
    }
  }
}
