/** What recording keeps: of arrivals in order of depth, for every name the one declaration at
    the least depth. */
module MethodSetRecord {
  import opened MethodSet

  predicate Ordered(arr: seq<Arrival>) {
    forall i, j :: 0 <= i < j < |arr| ==> arr[i].depth <= arr[j].depth
  }

  /** `a` is the only declaration of its name at the least depth the name arrives at. */
  predicate Unrivalled(arr: seq<Arrival>, a: Arrival) {
    a in arr && forall b :: b in arr && b.name == a.name ==> b.depth > a.depth || b == a
  }

  predicate Conflict(p: seq<Arrival>, w: Arrival) {
    exists b :: b in p && b.name == w.name && b.depth == w.depth && b.src != w.src
  }

  /** The record stands for the arrivals noted so far. */
  ghost predicate Reflects(r: Record, p: seq<Arrival>) {
    && (forall a :: a in p ==> a.name in r.winners && r.winners[a.name].depth <= a.depth)
    && (forall n :: n in r.winners ==> r.winners[n].name == n && r.winners[n] in p)
    && (forall a :: a in r.out <==> a.name in r.winners && r.winners[a.name] == a)
    && (forall n :: n in r.ambig <==> n in r.winners && Conflict(p, r.winners[n]))
  }

  lemma NoteReflects(r: Record, p: seq<Arrival>, a: Arrival)
    requires Reflects(r, p) && forall b :: b in p ==> b.depth <= a.depth
    ensures Reflects(Note(r, a), p + [a])
  {
    hide Conflict;
    var r', q := Note(r, a), p + [a];
    assert forall b :: b in q <==> b in p || b == a;
    forall n | n in r'.winners
      ensures n in r'.ambig <==> Conflict(q, r'.winners[n])
    {
      ConflictGrows(p, a, r'.winners[n]);
      if n !in r.winners {
        if Conflict(q, a) { NoRival(r, p, a); }
      }
    }
  }

  lemma ConflictGrows(p: seq<Arrival>, a: Arrival, w: Arrival)
    ensures Conflict(p + [a], w) <==> Conflict(p, w) || (a.name == w.name && a.depth == w.depth && a.src != w.src)
  {
    var q := p + [a];
    assert forall b :: b in q <==> b in p || b == a;
    if a.name == w.name && a.depth == w.depth && a.src != w.src { assert a in q; }
    if Conflict(p, w) {
      var b :| b in p && b.name == w.name && b.depth == w.depth && b.src != w.src;
      assert b in q;
    }
  }

  /** A name that was not there has no rival. */
  lemma NoRival(r: Record, p: seq<Arrival>, a: Arrival)
    requires Reflects(r, p) && a.name !in r.winners
    ensures !Conflict(p + [a], a)
  {
    ConflictGrows(p, a, a);
    assert forall b :: b in p ==> b.name != a.name;
  }

  lemma {:induction false} NoteAllReflects(r: Record, p: seq<Arrival>, rest: seq<Arrival>)
    requires Reflects(r, p) && Ordered(p + rest)
    ensures Reflects(NoteAll(r, rest), p + rest)
    decreases |rest|
  {
    hide Reflects, Note;
    if rest == [] {
      assert p + rest == p;
    } else {
      var all := p + rest;
      forall b | b in p ensures b.depth <= rest[0].depth {
        var i :| 0 <= i < |p| && p[i] == b;
        assert all[i] == b && all[|p|] == rest[0];
      }
      assert (p + [rest[0]]) + rest[1..] == all;
      NoteReflects(r, p, rest[0]);
      NoteAllReflects(Note(r, rest[0]), p + [rest[0]], rest[1..]);
    }
  }

  lemma ReflectsKept(r: Record, arr: seq<Arrival>, a: Arrival)
    requires Reflects(r, arr) && Kept(r, a)
    ensures Unrivalled(arr, a)
  {
    forall b | b in arr && b.name == a.name ensures b.depth > a.depth || b == a {
      if b.depth == a.depth && b.src != a.src { assert Conflict(arr, a); }
    }
  }

  lemma UnrivalledKept(r: Record, arr: seq<Arrival>, a: Arrival)
    requires Reflects(r, arr) && Unrivalled(arr, a)
    ensures Kept(r, a)
  {
    var w := r.winners[a.name];
    assert w in arr && w == a;
    assert !Conflict(arr, a);
  }

  /** Kept are exactly the unrivalled arrivals. */
  lemma KeptIff(arr: seq<Arrival>, a: Arrival)
    requires Ordered(arr)
    ensures Kept(NoteAll(EMPTY, arr), a) <==> Unrivalled(arr, a)
  {
    hide NoteAll, Kept, Unrivalled;
    assert [] + arr == arr;
    assert Reflects(EMPTY, []);
    NoteAllReflects(EMPTY, [], arr);
    var r := NoteAll(EMPTY, arr);
    if Unrivalled(arr, a) { UnrivalledKept(r, arr, a); }
    if Kept(r, a) { ReflectsKept(r, arr, a); }
  }
}
