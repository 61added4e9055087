/** The method set of a declaration: a breadth-first walk over embedded fields that records, for
    every name, the arrivals at the least depth. */
module MethodSet {
  import opened Basics

  type Sym = nat

  datatype Method = Method(name: string, ptrRecv: bool)
  datatype Field = Field(sym: Sym, byPtr: bool)

  /** An element of an interface: a method spec, or an embedded named element. */
  datatype Elem = Spec(name: string) | Embedded(sym: Sym)

  datatype Shape =
    | Named(next: Sym, alias: bool)
    | Interface(elems: seq<Elem>)
    | Struct(fields: seq<Field>)
    | Opaque

  datatype Decl = Decl(shape: Shape, methods: seq<Method>)
  type Graph = map<Sym, Decl>

  /** A name reaching the set: at which promotion depth, read from which declaration. */
  datatype Arrival = Arrival(name: string, depth: nat, src: Sym)

  // ---- Recording -------------------------------------------------------------------------

  /** winners, ambig and out, as the walk updates them. */
  datatype Record = Record(winners: map<string, Arrival>, ambig: set<string>, out: seq<Arrival>)

  function Note(r: Record, a: Arrival): Record {
    if a.name in r.winners then
      var w := r.winners[a.name];
      if w.depth == a.depth && w.src != a.src then r.(ambig := r.ambig + {a.name}) else r
    else r.(winners := r.winners[a.name := a], out := r.out + [a])
  }

  function NoteAll(r: Record, arrivals: seq<Arrival>): Record
    decreases |arrivals|
  {
    if arrivals == [] then r else NoteAll(Note(r, arrivals[0]), arrivals[1..])
  }

  const EMPTY := Record(map[], {}, [])

  /** The members kept: ambiguous names drop out. */
  predicate Kept(r: Record, a: Arrival) {
    a in r.out && a.name !in r.ambig
  }

  // ---- The walk --------------------------------------------------------------------------

  const LAYERS: nat := 8

  /** chaseType: through named layers to the declaration that owns the members; stops at what
      was visited before. */
  function Chase(g: Graph, s: Sym, visited: set<Sym>, fuel: nat): (r: (Option<Sym>, set<Sym>))
    ensures visited <= r.1
    ensures r.0.Some? ==> r.0.value in g && r.0.value !in visited && r.0.value in r.1
    decreases fuel
  {
    if fuel == 0 || s in visited then (None, visited)
    else if s !in g then (None, visited + {s})
    else if g[s].shape.Named? then Chase(g, g[s].shape.next, visited + {s}, fuel - 1)
    else (Some(s), visited + {s})
  }

  predicate IsInterface(g: Graph, s: Option<Sym>) {
    s.Some? && s.value in g && g[s.value].shape.Interface?
  }

  /** walkIfaceSpecs from element `i` of an interface on. */
  function Flatten(g: Graph, src: Sym, i: nat, depth: nat, visited: set<Sym>): (r: (seq<Arrival>, set<Sym>))
    requires IsInterface(g, Some(src)) && i <= |g[src].shape.elems|
    ensures visited <= r.1
    decreases g.Keys - visited, |g[src].shape.elems| - i
  {
    var elems := g[src].shape.elems;
    if i == |elems| then ([], visited)
    else if elems[i].Spec? then
      var r := Flatten(g, src, i + 1, depth, visited);
      ([Arrival(elems[i].name, depth, src)] + r.0, r.1)
    else
      var c := Chase(g, elems[i].sym, visited, LAYERS);
      if !IsInterface(g, c.0) then Flatten(g, src, i + 1, depth, c.1)
      else
        var a := Flatten(g, c.0.value, 0, depth, c.1);
        var b := Flatten(g, src, i + 1, depth, a.1);
        (a.0 + b.0, b.1)
  }

  /** A declaration waiting to be read: whether the way to it crossed a pointer, how deep it is,
      and whether it is the queried type itself. */
  datatype Entry = Entry(sym: Sym, ptr: bool, depth: nat, top: bool)

  predicate Eligible(m: Method, e: Entry) {
    e.ptr || e.top || !m.ptrRecv
  }

  function Methods(ms: seq<Method>, e: Entry): seq<Arrival> {
    if ms == [] then []
    else (if Eligible(ms[0], e) then [Arrival(ms[0].name, e.depth, e.sym)] else []) + Methods(ms[1..], e)
  }

  /** The entries the embedded fields from `i` on add to the queue. */
  function Push(g: Graph, e: Entry, i: nat, visited: set<Sym>): (r: (seq<Entry>, set<Sym>))
    requires e.sym in g && g[e.sym].shape.Struct? && i <= |g[e.sym].shape.fields|
    ensures visited <= r.1 && (r.0 != [] ==> g.Keys - r.1 < g.Keys - visited)
    ensures forall x :: x in r.0 ==> x.sym in g
    decreases |g[e.sym].shape.fields| - i
  {
    var fields := g[e.sym].shape.fields;
    if i == |fields| then ([], visited)
    else
      var c := Chase(g, fields[i].sym, visited, LAYERS);
      var r := Push(g, e, i + 1, c.1);
      if c.0.None? then r
      else
        assert c.0.value in g.Keys - visited && c.0.value !in g.Keys - r.1;
        ([Entry(c.0.value, e.ptr || fields[i].byPtr, e.depth + 1, false)] + r.0, r.1)
  }

  /** One round: what the first entry contributes, what it adds to the queue. */
  function Round(g: Graph, e: Entry, visited: set<Sym>): (r: (seq<Arrival>, seq<Entry>, set<Sym>))
    requires e.sym in g
    ensures visited <= r.2 && (r.1 != [] ==> g.Keys - r.2 < g.Keys - visited)
    ensures forall x :: x in r.1 ==> x.sym in g
  {
    match g[e.sym].shape
    case Interface(elems) =>
      var a := Flatten(g, e.sym, 0, e.depth, visited);
      (a.0, [], a.1)
    case Struct(fields) =>
      var q := Push(g, e, 0, visited);
      (Methods(g[e.sym].methods, e), q.0, q.1)
    case _ => (Methods(g[e.sym].methods, e), [], visited)
  }

  /** The arrivals, in the order in which the walk meets them. */
  function Walk(g: Graph, queue: seq<Entry>, visited: set<Sym>): seq<Arrival>
    requires forall e :: e in queue ==> e.sym in g
    decreases g.Keys - visited, |queue|
  {
    if queue == [] then []
    else
      var r := Round(g, queue[0], visited);
      r.0 + Walk(g, queue[1..] + r.1, r.2)
  }

  /** The declaration itself and, for an alias, its target, which has the same set. */
  function Start(g: Graph, s: Sym): (r: (seq<Entry>, set<Sym>))
    requires s in g
    ensures forall e :: e in r.0 ==> e.sym in g
  {
    var self := Entry(s, false, 0, true);
    if g[s].shape.Named? && g[s].shape.alias then
      var c := Chase(g, g[s].shape.next, {}, LAYERS);
      (if c.0.Some? then [self, Entry(c.0.value, false, 0, true)] else [self], c.1)
    else ([self], {})
  }

  function Arrivals(g: Graph, s: Sym): seq<Arrival>
    requires s in g
  {
    Walk(g, Start(g, s).0, Start(g, s).1)
  }

  predicate InMethodSet(g: Graph, s: Sym, a: Arrival)
    requires s in g
  {
    Kept(NoteAll(EMPTY, Arrivals(g, s)), a)
  }
}
