/** MethodSetOf as it runs: a queue of declarations, a visited set, and the record of winners
    and ambiguous names, all updated in place. */
module MethodSetLoops {
  import opened Basics
  import opened MethodSet

  lemma {:induction false} NoteAppend(r: Record, a: seq<Arrival>, b: seq<Arrival>)
    ensures NoteAll(r, a + b) == NoteAll(NoteAll(r, a), b)
    decreases |a|
  {
    hide Note;
    if a == [] {
      assert a + b == b;
    } else {
      assert (a + b)[1..] == a[1..] + b;
      NoteAppend(Note(r, a[0]), a[1..], b);
    }
  }

  class Walker {
    const g: Graph
    var visited: set<Sym>
    var winners: map<string, Arrival>
    var ambig: set<string>
    var out: seq<Arrival>

    constructor (graph: Graph)
      ensures g == graph && visited == {} && Noted() == EMPTY
    {
      g, visited, winners, ambig, out := graph, {}, map[], {}, [];
    }

    ghost function Noted(): Record
      reads this
    {
      Record(winners, ambig, out)
    }

    /** chaseType: up to eight named layers. */
    method ChaseType(start: Sym) returns (d: Option<Sym>)
      modifies this`visited
      ensures (d, visited) == Chase(g, start, old(visited), LAYERS)
    {
      var s := start;
      var i := 0;
      while i < LAYERS
        invariant 0 <= i <= LAYERS
        invariant Chase(g, start, old(visited), LAYERS) == Chase(g, s, visited, LAYERS - i)
      {
        if s in visited { return None; }
        visited := visited + {s};
        if s !in g { return None; }
        if !g[s].shape.Named? { return Some(s); }
        s := g[s].shape.next;
        i := i + 1;
      }
      return None;
    }

    /** The record hook: a distinct declaration at the winning depth makes the name ambiguous. */
    method Claim(a: Arrival)
      modifies this`winners, this`ambig, this`out
      ensures Noted() == Note(old(Noted()), a)
    {
      if a.name in winners {
        if winners[a.name].depth == a.depth && winners[a.name].src != a.src { ambig := ambig + {a.name}; }
      } else {
        winners, out := winners[a.name := a], out + [a];
      }
    }

    /** promoteIfaceSpecs: every spec of the interface and of those it embeds, at one depth. */
    method PromoteSpecs(src: Sym, depth: nat)
      requires IsInterface(g, Some(src))
      modifies this
      ensures visited == Flatten(g, src, 0, depth, old(visited)).1
      ensures Noted() == NoteAll(old(Noted()), Flatten(g, src, 0, depth, old(visited)).0)
      decreases g.Keys - visited
    {
      hide Chase, NoteAll, Note, Flatten;
      var elems := g[src].shape.elems;
      ghost var all := Flatten(g, src, 0, depth, visited);
      for i := 0 to |elems|
        invariant old(visited) <= visited
        invariant all.1 == Flatten(g, src, i, depth, visited).1
        invariant NoteAll(old(Noted()), all.0) == NoteAll(Noted(), Flatten(g, src, i, depth, visited).0)
      {
        FlattenNext(g, src, i, depth, visited);
        ghost var was, seen := Noted(), visited;
        if elems[i].Spec? {
          NoteFirst(was, Arrival(elems[i].name, depth, src), Flatten(g, src, i + 1, depth, visited).0);
          Claim(Arrival(elems[i].name, depth, src));
        } else {
          var ed := ChaseType(elems[i].sym);
          if IsInterface(g, ed) {
            ghost var f := Flatten(g, ed.value, 0, depth, visited);
            NoteAppend(was, f.0, Flatten(g, src, i + 1, depth, f.1).0);
            PromoteSpecs(ed.value, depth);
          }
        }
      }
      FlattenDone(g, src, depth, visited);
      NoteNone(Noted());
    }

    /** The methods of a declaration that the receiver rule lets through. */
    method ClaimMethods(e: Entry)
      requires e.sym in g
      modifies this`winners, this`ambig, this`out
      ensures Noted() == NoteAll(old(Noted()), Methods(g[e.sym].methods, e))
    {
      hide NoteAll, Note;
      var ms := g[e.sym].methods;
      assert ms[0..] == ms;
      for i := 0 to |ms|
        invariant NoteAll(old(Noted()), Methods(ms, e)) == NoteAll(Noted(), Methods(ms[i..], e))
      {
        assert ms[i..][1..] == ms[i + 1..];
        if Eligible(ms[i], e) {
          NoteFirst(Noted(), Arrival(ms[i].name, e.depth, e.sym), Methods(ms[i + 1..], e));
          Claim(Arrival(ms[i].name, e.depth, e.sym));
        } else {
          assert [] + Methods(ms[i + 1..], e) == Methods(ms[i + 1..], e);
        }
      }
      NoteNone(Noted());
    }

    /** The embedded fields, resolved and queued. */
    method PushFields(e: Entry) returns (more: seq<Entry>)
      requires e.sym in g && g[e.sym].shape.Struct?
      modifies this`visited
      ensures (more, visited) == Push(g, e, 0, old(visited))
    {
      hide Chase;
      var fields := g[e.sym].shape.fields;
      more := [];
      ghost var all := Push(g, e, 0, visited);
      assert [] + all.0 == all.0;
      for i := 0 to |fields|
        invariant all == (more + Push(g, e, i, visited).0, Push(g, e, i, visited).1)
      {
        ghost var seen := visited;
        var ed := ChaseType(fields[i].sym);
        ghost var rest := Push(g, e, i + 1, visited);
        if ed.Some? {
          var x := Entry(ed.value, e.ptr || fields[i].byPtr, e.depth + 1, false);
          assert more + ([x] + rest.0) == more + [x] + rest.0;
          more := more + [x];
        }
      }
      assert more + [] == more;
    }

    method MethodSetOf(s: Sym) returns (members: seq<Arrival>)
      requires s in g && visited == {} && Noted() == EMPTY
      modifies this
      ensures forall a :: a in members <==> InMethodSet(g, s, a)
    {
      hide Chase, Walk, NoteAll, Round;
      var queue := [Entry(s, false, 0, true)];
      if g[s].shape.Named? && g[s].shape.alias {
        var ed := ChaseType(g[s].shape.next);
        if ed.Some? { queue := queue + [Entry(ed.value, false, 0, true)]; }
      }
      assert queue == Start(g, s).0;
      while queue != []
        invariant forall e :: e in queue ==> e.sym in g
        invariant NoteAll(EMPTY, Arrivals(g, s)) == NoteAll(Noted(), Walk(g, queue, visited))
        decreases g.Keys - visited, |queue|
      {
        var cur := queue[0];
        ghost var r := Round(g, cur, visited);
        ghost var was := Noted();
        WalkNext(g, queue, visited);
        NoteAppend(was, r.0, Walk(g, queue[1..] + r.1, r.2));
        RoundIs(g, cur, visited);
        queue := queue[1..];
        assert queue + [] == queue;
        if g[cur.sym].shape.Interface? {
          PromoteSpecs(cur.sym, cur.depth);
        } else {
          ClaimMethods(cur);
          if g[cur.sym].shape.Struct? {
            var more := PushFields(cur);
            queue := queue + more;
          }
        }
      }
      WalkNone(g, visited);
      NoteNone(Noted());
      members := [];
      for i := 0 to |out|
        invariant forall a :: a in members <==> a in out[..i] && a.name !in ambig
      {
        if out[i].name !in ambig { members := members + [out[i]]; }
      }
      assert out[..|out|] == out;
    }
  }

  lemma NoteFirst(r: Record, a: Arrival, rest: seq<Arrival>)
    ensures NoteAll(r, [a] + rest) == NoteAll(Note(r, a), rest)
  {
    assert ([a] + rest)[1..] == rest;
  }

  lemma NoteNone(r: Record)
    ensures NoteAll(r, []) == r
  {
  }

  lemma FlattenNext(g: Graph, src: Sym, i: nat, depth: nat, visited: set<Sym>)
    requires IsInterface(g, Some(src)) && i < |g[src].shape.elems|
    ensures var r := Flatten(g, src, i, depth, visited);
      var x := g[src].shape.elems[i];
      if x.Spec? then
        var rest := Flatten(g, src, i + 1, depth, visited);
        r == ([Arrival(x.name, depth, src)] + rest.0, rest.1)
      else
        var c := Chase(g, x.sym, visited, LAYERS);
        if !IsInterface(g, c.0) then r == Flatten(g, src, i + 1, depth, c.1)
        else
          var f := Flatten(g, c.0.value, 0, depth, c.1);
          var rest := Flatten(g, src, i + 1, depth, f.1);
          r == (f.0 + rest.0, rest.1)
  {
    hide Chase;
  }

  lemma FlattenDone(g: Graph, src: Sym, depth: nat, visited: set<Sym>)
    requires IsInterface(g, Some(src))
    ensures Flatten(g, src, |g[src].shape.elems|, depth, visited) == ([], visited)
  {
  }

  lemma WalkNext(g: Graph, queue: seq<Entry>, visited: set<Sym>)
    requires (forall e :: e in queue ==> e.sym in g) && queue != []
    ensures var r := Round(g, queue[0], visited);
      Walk(g, queue, visited) == r.0 + Walk(g, queue[1..] + r.1, r.2)
  {
    hide Round;
  }

  lemma WalkNone(g: Graph, visited: set<Sym>)
    ensures Walk(g, [], visited) == []
  {
  }

  /** A round, by the shape of the declaration. */
  function RoundOf(g: Graph, e: Entry, visited: set<Sym>): (seq<Arrival>, seq<Entry>, set<Sym>)
    requires e.sym in g
  {
    if g[e.sym].shape.Interface? then
      (Flatten(g, e.sym, 0, e.depth, visited).0, [], Flatten(g, e.sym, 0, e.depth, visited).1)
    else if g[e.sym].shape.Struct? then
      (Methods(g[e.sym].methods, e), Push(g, e, 0, visited).0, Push(g, e, 0, visited).1)
    else (Methods(g[e.sym].methods, e), [], visited)
  }

  lemma RoundIs(g: Graph, e: Entry, visited: set<Sym>)
    requires e.sym in g
    ensures Round(g, e, visited) == RoundOf(g, e, visited)
  {
    hide Flatten, Push, Methods;
  }
}
