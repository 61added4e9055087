/** Typedefs as the dispatcher sees them, and what their type references resolve to. */
module TypeGraph {

  type Id = nat
  type Ref = nat
  type Sig = nat

  datatype Kind =
    | Alias(target: Ref)                 // type A = B
    | Interface
    | Pointer(declared: bool, elem: Ref) // *T, anonymous or declared
    | Other

  datatype Method = Method(ptrRecv: bool, generic: bool)

  /** An embedded field: what it refers to, and whether it is spelled *T. */
  datatype Embed = Embed(ref: Ref, star: bool)

  /** `reqs` are the names an interface requires itself, `sigs` those of them with a declared
      signature, `ifaces` the elements it embeds; `methods` and `embeds` are those of any other
      type. */
  datatype Def = Def(kind: Kind, reqs: set<string>, sigs: map<string, Sig>, ifaces: seq<Ref>,
    methods: map<string, Method>, embeds: seq<Embed>)

  /** The typedefs there are so far, and the references that resolve so far. */
  datatype World = World(defs: map<Id, Def>, to: map<Ref, Id>)

  predicate Sound(w: World) {
    forall r :: r in w.to ==> w.to[r] in w.defs
  }

  /** Resolution only ever adds. */
  predicate Grows(w: World, w': World) {
    && (forall t :: t in w.defs ==> t in w'.defs && w'.defs[t] == w.defs[t])
    && (forall r :: r in w.to ==> r in w'.to && w'.to[r] == w.to[r])
  }

  // ---- Aliases ---------------------------------------------------------------------------

  const MAX_HOPS: nat := 32

  /** The alias links followed: up to `hops`, as far as they resolve. */
  function Peel(w: World, td: Id, hops: nat): (n: Id)
    requires Sound(w) && td in w.defs
    ensures n in w.defs
    decreases hops
  {
    var k := w.defs[td].kind;
    if hops == 0 || !k.Alias? || k.target !in w.to || w.to[k.target] == td then td
    else Peel(w, w.to[k.target], hops - 1)
  }

  function Real(w: World, td: Id): (n: Id)
    requires Sound(w) && td in w.defs
    ensures n in w.defs
  {
    Peel(w, td, MAX_HOPS)
  }

  /** The peeling ended at an alias whose target does not resolve: that target. */
  function StuckAt(w: World, td: Id, hops: nat): set<Ref>
    requires Sound(w) && td in w.defs
    decreases hops
  {
    var k := w.defs[td].kind;
    if hops == 0 || !k.Alias? then {}
    else if k.target !in w.to then {k.target}
    else if w.to[k.target] == td then {}
    else StuckAt(w, w.to[k.target], hops - 1)
  }

  /** `b` is what the alias `a` is declared to be. */
  predicate AliasOf(w: World, a: Id, b: Id) {
    && a in w.defs && w.defs[a].kind.Alias? && w.defs[a].kind.target in w.to
    && b == w.to[w.defs[a].kind.target] && b != a
  }

  /** The type is the last of a chain of aliases: each is declared to be the next; the last is no alias,
      or its target is unknown or itself, or `hops` links were followed. */
  lemma {:induction false} PeelChain(w: World, td: Id, hops: nat) returns (chain: seq<Id>)
    requires Sound(w) && td in w.defs
    ensures 0 < |chain| <= hops + 1 && chain[0] == td && chain[|chain| - 1] == Peel(w, td, hops)
    ensures forall i :: 0 <= i < |chain| - 1 ==> AliasOf(w, chain[i], chain[i + 1])
    ensures |chain| == hops + 1 || forall b :: !AliasOf(w, Peel(w, td, hops), b)
    decreases hops
  {
    var k := w.defs[td].kind;
    if hops == 0 || !k.Alias? || k.target !in w.to || w.to[k.target] == td {
      chain := [td];
    } else {
      var rest := PeelChain(w, w.to[k.target], hops - 1);
      chain := [td] + rest;
      forall i | 0 <= i < |chain| - 1 ensures AliasOf(w, chain[i], chain[i + 1]) {
        if i > 0 { assert AliasOf(w, rest[i - 1], rest[i - 1 + 1]); }
      }
    }
  }

  predicate Firm(w: World, td: Id)
    requires Sound(w) && td in w.defs
  {
    StuckAt(w, td, MAX_HOPS) == {}
  }

  /** peelAliasTd. */
  method PeelAlias(w: World, start: Id) returns (td: Id)
    requires Sound(w) && start in w.defs
    ensures td == Real(w, start)
  {
    td := start;
    var i := 0;
    while i < MAX_HOPS && w.defs[td].kind.Alias?
      invariant 0 <= i <= MAX_HOPS && td in w.defs
      invariant Peel(w, start, MAX_HOPS) == Peel(w, td, MAX_HOPS - i)
    {
      var target := w.defs[td].kind.target;
      if target !in w.to || w.to[target] == td { break; }
      td := w.to[target];
      i := i + 1;
    }
  }

  lemma {:induction false} PeelKept(w: World, w': World, td: Id, hops: nat)
    requires Sound(w) && Sound(w') && Grows(w, w') && td in w.defs && StuckAt(w, td, hops) == {}
    ensures Peel(w', td, hops) == Peel(w, td, hops) && StuckAt(w', td, hops) == {}
    decreases hops
  {
    var k := w.defs[td].kind;
    if hops == 0 || !k.Alias? {
    } else if k.target in w.to && w.to[k.target] != td {
      PeelKept(w, w', w.to[k.target], hops - 1);
    }
  }
}
