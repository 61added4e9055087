/** each: workers draw indices from a shared counter and run a function on them; every
    interleaving runs every index exactly once. */
module Each {
  import opened Basics

  /** A worker is about to draw an index, is running one, or has returned. */
  datatype Worker = Drawing | Running(k: nat) | Returned

  /** The shared counter, the workers, what ran so far in order of completion, and the slots the
      function fills. */
  datatype State<T> = State(next: nat, workers: seq<Worker>, ran: seq<nat>, slots: seq<Option<T>>)

  function Idle(count: nat): seq<Worker> {
    seq(count, _ => Drawing)
  }

  /** GOMAXPROCS is at least one. */
  function Start<T>(n: nat, procs: nat): State<T> {
    State(0, Idle(if n < procs then n else procs), [], seq(n, _ => None))
  }

  predicate AllReturned(ws: seq<Worker>) {
    forall w :: w in ws ==> w.Returned?
  }

  /** A step of worker `w`: drawing is one locked section; running index k fills slot k. */
  ghost predicate Step<T>(n: nat, f: nat -> T, s: State<T>, s': State<T>, w: nat) {
    w < |s.workers| &&
    match s.workers[w]
    case Drawing =>
      s' == s.(next := s.next + 1, workers := s.workers[w := if s.next < n then Running(s.next) else Returned])
    case Running(k) =>
      k < |s.slots| && s' == s.(workers := s.workers[w := Drawing], ran := s.ran + [k],
        slots := s.slots[k := Some(f(k))])
    case Returned => false
  }

  ghost predicate Moves<T>(n: nat, f: nat -> T, s: State<T>, s': State<T>) {
    exists w :: Step(n, f, s, s', w)
  }

  ghost predicate Run<T>(n: nat, f: nat -> T, tr: seq<State<T>>, procs: nat) {
    && |tr| > 0 && procs > 0 && tr[0] == Start(n, procs)
    && forall i :: 0 <= i < |tr| - 1 ==> Moves(n, f, tr[i], tr[i + 1])
  }

  // ---- The invariant -------------------------------------------------------------------------

  predicate IsRunning(s: State, w: nat, k: nat) {
    w < |s.workers| && s.workers[w] == Running(k)
  }

  /** Index k was drawn: it ran, or exactly one worker runs it. */
  ghost predicate Accounted<T(!new)>(n: nat, f: nat -> T, s: State<T>) {
    && |s.slots| == n && |s.workers| <= n
    && (forall k :: k in s.ran ==> k < n && k < s.next)
    && (forall i, j :: 0 <= i < j < |s.ran| ==> s.ran[i] != s.ran[j])
    && (forall w: nat, k: nat :: IsRunning(s, w, k) ==> k < n && k < s.next && k !in s.ran)
    && (forall v: nat, w: nat, k: nat :: IsRunning(s, v, k) && IsRunning(s, w, k) ==> v == w)
    && (forall k: nat :: k < n && k < s.next ==> k in s.ran || exists w: nat :: IsRunning(s, w, k))
    && (forall k: nat :: k < n ==> s.slots[k] == if k in s.ran then Some(f(k)) else None)
  }

  /** A worker returns only when every index was drawn. */
  ghost predicate Drained<T>(n: nat, s: State<T>) {
    forall w :: w in s.workers && w.Returned? ==> s.next >= n
  }

  lemma DrawKeeps<T(!new)>(n: nat, f: nat -> T, s: State<T>, s': State<T>, w: nat)
    requires Accounted(n, f, s) && Step(n, f, s, s', w) && s.workers[w].Drawing?
    ensures Accounted(n, f, s')
  {
    forall k: nat | k < n && k < s'.next ensures k in s'.ran || exists v: nat :: IsRunning(s', v, k) {
      if k == s.next {
        assert IsRunning(s', w, k);
      } else if k !in s.ran {
        var v: nat :| IsRunning(s, v, k);
        assert IsRunning(s', v, k);
      }
    }
    forall v: nat, k: nat | IsRunning(s', v, k) ensures k < n && k < s'.next && k !in s'.ran {
      if v != w { assert IsRunning(s, v, k); }
    }
    forall u: nat, v: nat, k: nat | IsRunning(s', u, k) && IsRunning(s', v, k) ensures u == v {
      if u != w { assert IsRunning(s, u, k); }
      if v != w { assert IsRunning(s, v, k); }
    }
  }

  lemma RunKeeps<T(!new)>(n: nat, f: nat -> T, s: State<T>, s': State<T>, w: nat)
    requires Accounted(n, f, s) && Step(n, f, s, s', w) && s.workers[w].Running?
    ensures Accounted(n, f, s')
  {
    var j := s.workers[w].k;
    assert IsRunning(s, w, j);
    assert forall k :: k in s'.ran <==> k in s.ran || k == j;
    forall v: nat, k: nat | IsRunning(s', v, k) ensures k < n && k < s'.next && k !in s'.ran {
      assert v != w && IsRunning(s, v, k);
    }
    forall u: nat, v: nat, k: nat | IsRunning(s', u, k) && IsRunning(s', v, k) ensures u == v {
      assert u != w && v != w && IsRunning(s, u, k) && IsRunning(s, v, k);
    }
    forall k: nat | k < n && k < s'.next ensures k in s'.ran || exists v: nat :: IsRunning(s', v, k) {
      if k !in s'.ran {
        var v: nat :| IsRunning(s, v, k);
        assert IsRunning(s', v, k);
      }
    }
  }

  lemma StepDrains<T(!new)>(n: nat, f: nat -> T, s: State<T>, s': State<T>, w: nat)
    requires Drained(n, s) && Step(n, f, s, s', w)
    ensures Drained(n, s')
  {
    forall x | x in s'.workers && x.Returned? ensures s'.next >= n {
      var i :| 0 <= i < |s'.workers| && s'.workers[i] == x;
      if i != w { assert s.workers[i] in s.workers; }
    }
  }

  lemma {:induction false} RunAccounted<T(!new)>(n: nat, f: nat -> T, tr: seq<State<T>>, procs: nat, i: nat)
    requires Run(n, f, tr, procs) && i < |tr|
    ensures Accounted(n, f, tr[i]) && Drained(n, tr[i])
    decreases i
  {
    hide Accounted, Drained, Step;
    if i == 0 {
      StartAccounted(n, f, procs);
    } else {
      RunAccounted(n, f, tr, procs, i - 1);
      assert Moves(n, f, tr[i - 1], tr[i - 1 + 1]);
      var w :| Step(n, f, tr[i - 1], tr[i], w);
      StepKeeps(n, f, tr[i - 1], tr[i], w);
    }
  }

  lemma StartAccounted<T(!new)>(n: nat, f: nat -> T, procs: nat)
    ensures Accounted(n, f, Start(n, procs)) && Drained(n, Start<T>(n, procs))
  {
  }

  lemma StepKeeps<T(!new)>(n: nat, f: nat -> T, s: State<T>, s': State<T>, w: nat)
    requires Accounted(n, f, s) && Drained(n, s) && Step(n, f, s, s', w)
    ensures Accounted(n, f, s') && Drained(n, s')
  {
    StepDrains(n, f, s, s', w);
    if s.workers[w].Drawing? { DrawKeeps(n, f, s, s', w); } else { RunKeeps(n, f, s, s', w); }
  }

  // ---- The promises ---------------------------------------------------------------------------

  /** An order in which every index below `n` runs exactly once. */
  ghost predicate OnceEach(n: nat, ran: seq<nat>) {
    && (forall k: nat :: k in ran <==> k < n)
    && (forall i, j :: 0 <= i < j < |ran| ==> ran[i] != ran[j])
  }

  /** Every index ran exactly once and every slot holds its result. */
  ghost predicate AllRanOnce<T>(n: nat, f: nat -> T, s: State<T>) {
    OnceEach(n, s.ran) && |s.slots| == n && (forall k: nat :: k < n ==> s.slots[k] == Some(f(k)))
  }

  lemma ReturnedRanAll<T(!new)>(n: nat, f: nat -> T, s: State<T>)
    requires Accounted(n, f, s) && AllReturned(s.workers) && s.next >= n
    ensures AllRanOnce(n, f, s)
  {
    forall k: nat | k < n ensures k in s.ran {
      assert forall w: nat :: IsRunning(s, w, k) ==> s.workers[w] in s.workers && !s.workers[w].Returned?;
    }
  }

  /** When all workers have returned, every index ran exactly once. */
  lemma EveryIndexOnce<T(!new)>(n: nat, f: nat -> T, tr: seq<State<T>>, procs: nat)
    requires Run(n, f, tr, procs) && AllReturned(tr[|tr| - 1].workers)
    ensures AllRanOnce(n, f, tr[|tr| - 1])
  {
    hide Accounted, AllRanOnce;
    var s := tr[|tr| - 1];
    RunAccounted(n, f, tr, procs, |tr| - 1);
    WorkersStay(n, f, tr, procs, |tr| - 1);
    if n > 0 { assert s.workers[0] in s.workers; }
    ReturnedRanAll(n, f, s);
  }

  lemma {:induction false} WorkersStay<T(!new)>(n: nat, f: nat -> T, tr: seq<State<T>>, procs: nat, i: nat)
    requires Run(n, f, tr, procs) && i < |tr|
    ensures |tr[i].workers| == (if n < procs then n else procs)
    decreases i
  {
    if i > 0 {
      WorkersStay(n, f, tr, procs, i - 1);
      assert Moves(n, f, tr[i - 1], tr[i - 1 + 1]);
    }
  }

  /** Until all workers have returned some worker can step: no interleaving is stuck. */
  lemma NeverStuck<T(!new)>(n: nat, f: nat -> T, s: State<T>) returns (s': State<T>, w: nat)
    requires Accounted(n, f, s) && !AllReturned(s.workers)
    ensures Step(n, f, s, s', w)
  {
    var x :| x in s.workers && !x.Returned?;
    w :| w < |s.workers| && s.workers[w] == x;
    match x
    case Drawing =>
      s' := s.(next := s.next + 1, workers := s.workers[w := if s.next < n then Running(s.next) else Returned]);
    case Running(k) =>
      assert IsRunning(s, w, k);
      s' := s.(workers := s.workers[w := Drawing], ran := s.ran + [k], slots := s.slots[k := Some(f(k))]);
  }

  /** Work left: two steps for every index not drawn, then what each worker still has to do. */
  function Effort(ws: seq<Worker>): nat {
    if ws == [] then 0
    else (match ws[0] case Drawing => 1 case Running(_) => 2 case Returned => 0) + Effort(ws[1..])
  }

  function Left<T>(n: nat, s: State<T>): nat {
    2 * (if s.next < n then n - s.next else 0) + Effort(s.workers)
  }

  lemma {:induction false} EffortAt(ws: seq<Worker>, w: nat, x: Worker)
    requires w < |ws|
    ensures Effort(ws[w := x]) + Effort([ws[w]]) == Effort(ws) + Effort([x])
  {
    var xs := ws[w := x];
    if w == 0 {
      assert xs[1..] == ws[1..];
    } else {
      EffortAt(ws[1..], w - 1, x);
      assert xs[1..] == ws[1..][w - 1 := x];
    }
  }

  /** Every step leaves less to do, so every interleaving ends. */
  lemma WorkFalls<T(!new)>(n: nat, f: nat -> T, s: State<T>, s': State<T>, w: nat)
    requires Step(n, f, s, s', w)
    ensures Left(n, s') < Left(n, s)
  {
    EffortAt(s.workers, w, s'.workers[w]);
  }
}
