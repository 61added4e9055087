/** Go's rule for promotion: only aliases stand for other types, a defined type has its own methods
    and the fields of its underlying type, and an interface's embedded interfaces are merged. */
module Promotion {
  import opened Basics
  import opened MethodSet
  import opened MethodSetLaw
  import opened MethodSetCover

  /** Past the alias layers, at most `n` of them. */
  function Unalias(g: Graph, x: Sym, n: nat): (u: Option<Sym>)
    ensures u.Some? ==> u.value in g
    decreases n
  {
    if n == 0 || x !in g then None
    else if g[x].shape.Named? && g[x].shape.alias then Unalias(g, g[x].shape.next, n - 1)
    else Some(x)
  }

  /** The type a spelling stands for, through however many aliases. */
  ghost predicate Denotes(g: Graph, x: Sym, u: Sym) {
    exists n: nat :: Unalias(g, x, n) == Some(u)
  }

  /** An embedded field of the type's underlying struct. */
  ghost predicate Step(g: Graph, t: Sym, k: nat, u: Sym, ptr: bool) {
    exists w: Sym :: Ends(g, t, w) && FieldAt(g, w, k, u, ptr)
  }

  ghost predicate FieldAt(g: Graph, w: Sym, k: nat, u: Sym, ptr: bool) {
    w in g && g[w].shape.Struct? && k < |g[w].shape.fields| && Denotes(g, g[w].shape.fields[k].sym, u)
    && ptr == g[w].shape.fields[k].byPtr
  }

  /** Down the embedded fields, crossing a pointer or not. */
  ghost predicate Path(g: Graph, t: Sym, route: seq<nat>, u: Sym, ptr: bool)
    decreases |route|
  {
    if route == [] then u == t && !ptr
    else exists v: Sym, p: bool, q: bool ::
      Step(g, t, route[0], v, p) && Path(g, v, route[1..], u, q) && ptr == (p || q)
  }

  /** Down the embedded elements of an interface. */
  ghost predicate Inside(g: Graph, w: Sym, route: seq<nat>, d: Sym)
    decreases |route|
  {
    && w in g && g[w].shape.Interface?
    && if route == [] then d == w
       else exists v: Sym :: ElementAt(g, w, route[0], v) && Inside(g, v, route[1..], d)
  }

  ghost predicate ElementAt(g: Graph, w: Sym, k: nat, v: Sym)
    requires w in g && g[w].shape.Interface?
  {
    k < |g[w].shape.elems| && g[w].shape.elems[k].Embedded? && Ends(g, g[w].shape.elems[k].sym, v)
  }

  /** The interface type specifies the name, in `d`. */
  ghost predicate Declares(g: Graph, t: Sym, name: string, d: Sym) {
    exists w: Sym, route: seq<nat> :: Ends(g, t, w) && Inside(g, w, route, d) && d in g && Specifies(g, d, name)
  }

  ghost predicate OverInterface(g: Graph, t: Sym) {
    exists w: Sym :: Ends(g, t, w) && w in g && g[w].shape.Interface?
  }

  /** The type has the name itself: `any` says that methods by pointer count. */
  ghost predicate HasMember(g: Graph, t: Sym, name: string, any: bool)
    requires t in g
  {
    if OverInterface(g, t) then exists d :: Declares(g, t, name, d)
    else exists m :: m in g[t].methods && m.name == name && (any || !m.ptrRecv)
  }

  /** Down these fields of the queried type is a type that has the name. */
  ghost predicate OffersBy(g: Graph, s: Sym, name: string, e: Sym, route: seq<nat>, t: Sym, ptr: bool) {
    Denotes(g, s, e) && Path(g, e, route, t, ptr) && t in g && HasMember(g, t, name, route == [] || ptr)
  }

  ghost predicate Offers(g: Graph, s: Sym, name: string, depth: nat, t: Sym) {
    exists e: Sym, route: seq<nat>, ptr: bool :: |route| == depth && OffersBy(g, s, name, e, route, t, ptr)
  }

  /** One member: of one type, or of interfaces that have it from the same declarations. */
  ghost predicate OneMember(g: Graph, name: string, t: Sym, u: Sym) {
    t == u
    || (OverInterface(g, t) && OverInterface(g, u) && forall d :: Declares(g, t, name, d) <==> Declares(g, u, name, d))
  }

  /** At the least depth at which the name is offered there is one member, and `t` has it. */
  ghost predicate Promoted(g: Graph, s: Sym, name: string, depth: nat, t: Sym) {
    && Offers(g, s, name, depth, t)
    && forall d: nat, u: Sym :: Offers(g, s, name, d, u) ==> d > depth || (d == depth && OneMember(g, name, t, u))
  }

  // ---- Alias layers ------------------------------------------------------------------------------

  lemma {:induction false} UnaliasMore(g: Graph, x: Sym, n: nat, m: nat)
    requires Unalias(g, x, n).Some? && n <= m
    ensures Unalias(g, x, m) == Unalias(g, x, n)
    decreases n
  {
    if g[x].shape.Named? && g[x].shape.alias { UnaliasMore(g, g[x].shape.next, n - 1, m - 1); }
  }

  lemma DenotesOne(g: Graph, x: Sym, u: Sym, w: Sym)
    requires Denotes(g, x, u) && Denotes(g, x, w)
    ensures u == w
  {
    var n: nat :| Unalias(g, x, n) == Some(u);
    var m: nat :| Unalias(g, x, m) == Some(w);
    if n <= m { UnaliasMore(g, x, n, m); } else { UnaliasMore(g, x, m, n); }
  }

  lemma EndsOne(g: Graph, x: Sym, u: Sym, w: Sym)
    requires Ends(g, x, u) && Ends(g, x, w)
    ensures u == w
  {
    var n: nat :| End(g, x, n) == Some(u);
    var m: nat :| End(g, x, m) == Some(w);
    if n <= m { EndMore(g, x, n, m); } else { EndMore(g, x, m, n); }
  }

  lemma {:induction false} UnaliasThen(g: Graph, x: Sym, n: nat, u: Sym, m: nat, w: Sym)
    requires Unalias(g, x, n) == Some(u) && End(g, u, m) == Some(w)
    ensures End(g, x, n + m) == Some(w)
    decreases n
  {
    if g[x].shape.Named? && g[x].shape.alias {
      UnaliasThen(g, g[x].shape.next, n - 1, u, m, w);
    } else {
      EndMore(g, x, m, n + m);
    }
  }

  /** What a spelling comes down to, the type it stands for does. */
  lemma {:induction false} EndsDenotes(g: Graph, x: Sym, n: nat, w: Sym) returns (u: Sym)
    requires End(g, x, n) == Some(w)
    ensures Unalias(g, x, n) == Some(u) && Ends(g, u, w)
    decreases n
  {
    if g[x].shape.Named? && g[x].shape.alias { u := EndsDenotes(g, g[x].shape.next, n - 1, w); } else { u := x; }
  }

  lemma Denoted(g: Graph, x: Sym, w: Sym) returns (u: Sym)
    requires Ends(g, x, w)
    ensures Denotes(g, x, u) && Ends(g, u, w)
  {
    var n: nat :| End(g, x, n) == Some(w);
    u := EndsDenotes(g, x, n, w);
  }

  lemma DenotesEnds(g: Graph, x: Sym, u: Sym, w: Sym)
    requires Denotes(g, x, u) && Ends(g, u, w)
    ensures Ends(g, x, w)
  {
    var n: nat :| Unalias(g, x, n) == Some(u);
    var m: nat :| End(g, u, m) == Some(w);
    UnaliasThen(g, x, n, u, m, w);
  }

  lemma {:induction false} UnaliasKind(g: Graph, x: Sym, n: nat)
    requires Unalias(g, x, n).Some?
    ensures var u := Unalias(g, x, n).value; g[u].shape.Named? ==> !g[u].shape.alias
    decreases n
  {
    if g[x].shape.Named? && g[x].shape.alias { UnaliasKind(g, g[x].shape.next, n - 1); }
  }

  /** No spelling stands for an alias. */
  lemma DenotesKind(g: Graph, x: Sym, u: Sym)
    requires Denotes(g, x, u)
    ensures u in g && (g[u].shape.Named? ==> !g[u].shape.alias)
  {
    var n: nat :| Unalias(g, x, n) == Some(u);
    UnaliasKind(g, x, n);
  }

  /** Passing through the type loses nothing: it is not defined by another's name, or over an
      interface. */
  ghost predicate Clear(g: Graph, u: Sym) {
    u in g && (g[u].shape.Named? ==> OverInterface(g, u))
  }

  /** And so is what the spelling stands for. */
  ghost predicate Transparent(g: Graph, x: Sym) {
    forall u: Sym :: Denotes(g, x, u) ==> Clear(g, u)
  }

  lemma PlainOver(g: Graph, t: Sym)
    requires t in g && !g[t].shape.Named?
    ensures forall w: Sym :: Ends(g, t, w) <==> w == t
    ensures OverInterface(g, t) <==> g[t].shape.Interface?
  {
    hide Ends;
    EndsSelf(g, t);
    forall w: Sym | Ends(g, t, w) ensures w == t { EndsPlain(g, t, w); }
  }

  /** What a clear type comes down to is the type itself, or an interface. */
  lemma ClearEnds(g: Graph, u: Sym, w: Sym)
    requires Clear(g, u) && Ends(g, u, w)
    ensures u in g && w in g && !g[w].shape.Named? && (OverInterface(g, u) <==> g[w].shape.Interface?)
    ensures !g[w].shape.Interface? ==> u == w
    ensures g[u].shape.Named? || u == w
  {
    hide Ends;
    EndsPlain(g, u, w);
    if OverInterface(g, u) {
      var v: Sym :| Ends(g, u, v) && v in g && g[v].shape.Interface?;
      EndsOne(g, u, v, w);
    }
    if !g[u].shape.Named? { PlainOver(g, u); }
  }
}
