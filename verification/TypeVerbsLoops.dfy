/** rewriteTypeVerbs as it runs: one pass that records the directives, one that checks them
    and one that rebuilds the string and its operands. */
module TypeVerbsLoops {
  import opened Printf
  import opened TypeVerbs

  /** The bracket that closes an index, or the end of the string. */
  method CloseBracket(spec: string, i: nat) returns (k: nat)
    requires i <= |spec|
    ensures k == Find(spec, ']', i)
  {
    k := i;
    while k < |spec| && spec[k] != ']'
      invariant i <= k <= |spec| && Find(spec, ']', i) == Find(spec, ']', k)
    {
      k := k + 1;
    }
  }

  lemma ScanTailStep(spec: string, i: nat, st: St)
    ensures i >= |spec| || !(spec[i] == '[' || spec[i] == '*' || IsSkipped(spec[i])) ==>
      ScanTail(spec, i, st) == (st, i)
    ensures i < |spec| && spec[i] == '[' ==>
      ScanTail(spec, i, st)
        == ScanTail(spec, Find(spec, ']', i + 1) + 1, AfterIndex(st, spec[i + 1..Find(spec, ']', i + 1)]))
    ensures i < |spec| && spec[i] == '*' ==> ScanTail(spec, i, st) == ScanTail(spec, i + 1, AfterStar(st))
    ensures i < |spec| && IsSkipped(spec[i]) ==> ScanTail(spec, i, st) == ScanTail(spec, i + 1, st)
  {
    hide Atoi, AfterIndex, AfterStar, Find;
  }

  /** The inner scan of one directive, from behind its `%` up to its verb. */
  method ScanOne(spec: string, start: nat, v: Vars) returns (st: St, i: nat)
    ensures (st, i) == ScanTail(spec, start, Fresh(v))
  {
    hide ScanTail, IsSkipped, Atoi, Find;
    var argNum, maxArg, reordered := v.argNum, v.maxArg, v.reordered;
    var pos, stars, star, indexed := -1, [], false, false;
    i := start;
    while i < |spec| && (spec[i] == '[' || spec[i] == '*' || IsSkipped(spec[i]))
      invariant ScanTail(spec, start, Fresh(v))
        == ScanTail(spec, i, St(Vars(argNum, maxArg, reordered), pos, stars, star, indexed))
      decreases |spec| - i
    {
      ScanTailStep(spec, i, St(Vars(argNum, maxArg, reordered), pos, stars, star, indexed));
      if spec[i] == '[' {
        var k := CloseBracket(spec, i + 1);
        var n := Atoi(spec[i + 1..k]);
        if n.Some? {
          pos, argNum, indexed, reordered := n.value - 1, n.value, true, true;
        }
        i := k + 1;
      } else if spec[i] == '*' {
        if pos < 0 {
          stars, argNum := stars + [argNum], argNum + 1;
          if argNum > maxArg { maxArg := argNum; }
        }
        star, i := true, i + 1;
      } else {
        i := i + 1;
      }
    }
    st := St(Vars(argNum, maxArg, reordered), pos, stars, star, indexed);
    ScanTailStep(spec, i, st);
  }

  lemma PrependMore(a: seq<Found>, b: seq<Found>, rest: (seq<Found>, Vars))
    ensures Prepend(a, Prepend(b, rest)) == Prepend(a + b, rest)
  {
    assert a + (b + rest.0) == (a + b) + rest.0;
  }

  /** The pass that records the directives. */
  method ScanSpec(spec: string) returns (dirs: seq<Found>, v: Vars)
    ensures (dirs, v) == ScanAll(spec, 0, Vars(0, 0, false))
  {
    var i := 0;
    dirs, v := [], Vars(0, 0, false);
    ghost var goal := ScanAll(spec, 0, v);
    assert [] + goal.0 == goal.0;
    while i < |spec|
      invariant 0 <= i <= |spec| && goal == Prepend(dirs, ScanAll(spec, i, v))
      decreases |spec| - i
    {
      var pct := Find(spec, '%', i);
      assert dirs + [] == dirs;
      if pct + 1 >= |spec| { return; }
      var st, e := ScanOne(spec, pct + 1, v);
      if e >= |spec| { return dirs, st.v; }
      var (fs, v') := Close(st, pct, e + 1, spec[e]);
      PrependMore(dirs, fs, ScanAll(spec, e + 1, v'));
      dirs, v, i := dirs + fs, v', e + 1;
    }
  }

  /** Copies a directive's text without its bracketed indexes. */
  method StripIndexes(tail: string) returns (sb: string)
    ensures sb == Strip(tail, 0)
  {
    var k := 0;
    sb := "";
    while k < |tail|
      invariant Strip(tail, 0) == sb + Strip(tail, k)
      decreases |tail| - k
    {
      if tail[k] == '[' {
        var e := CloseBracket(tail, k);
        k := e + 1;
      } else {
        assert sb + [tail[k]] + Strip(tail, k + 1) == sb + Strip(tail, k);
        sb, k := sb + [tail[k]], k + 1;
      }
    }
  }

  /** Whether every operand resolves inside the list. */
  method AllResolve(dirs: seq<Found>, n: nat) returns (ok: bool)
    ensures ok == AllUsable(dirs, n)
  {
    for i := 0 to |dirs|
      invariant forall k :: 0 <= k < i ==> Usable(dirs[k], n)
    {
      var d := dirs[i];
      if d.starIdx || d.pos < 0 || d.pos >= n { return false; }
      for j := 0 to |d.stars|
        invariant forall k :: 0 <= k < j ==> 0 <= d.stars[k] < n
      {
        if d.stars[j] < 0 || d.stars[j] >= n { return false; }
      }
    }
    return true;
  }

  /** The operands of one directive, stars first. */
  method Emit<V>(d: Found, vals: seq<V>) returns (na: seq<Arg<V>>)
    requires Usable(d, |vals|)
    ensures na == DirOperands(d, vals)
  {
    na := [];
    for k := 0 to |d.stars|
      invariant na == DirOperands(d, vals)[..k]
    {
      na := na + [Shown(vals[d.stars[k]])];
    }
    na := na + [Rendered(d.verb, vals[d.pos])];
  }

  lemma BuildStep(spec: string, prev: nat, ds: seq<Found>, sb: string)
    requires prev <= |spec| && Spans(ds, prev, |spec|) && ds != []
    ensures prev <= ds[0].start && ds[0].start + 1 < ds[0].end <= |spec| && Spans(ds[1..], ds[0].end, |spec|)
    ensures sb + Build(spec, prev, ds)
         == sb + spec[prev..ds[0].start] + "%" + Strip(spec[ds[0].start + 1..ds[0].end - 1], 0) + [NewVerb(ds[0].verb)]
            + Build(spec, ds[0].end, ds[1..])
  {
    hide Strip;
  }

  lemma OperandStep<V>(ds: seq<Found>, vals: seq<V>, na: seq<Arg<V>>)
    requires AllUsable(ds, |vals|) && ds != []
    ensures Usable(ds[0], |vals|) && AllUsable(ds[1..], |vals|)
    ensures na + Operands(ds, vals) == na + DirOperands(ds[0], vals) + Operands(ds[1..], vals)
  {
    assert Usable(ds[0], |vals|);
    assert forall k :: 0 <= k < |ds[1..]| ==> ds[1..][k] == ds[k + 1];
  }

  /** The string and the operand list it is printed over. */
  method Rebuild<V>(spec: string, dirs: seq<Found>, vals: seq<V>) returns (sb: string, na: seq<Arg<V>>)
    requires Spans(dirs, 0, |spec|) && AllUsable(dirs, |vals|)
    ensures sb == Build(spec, 0, dirs) && na == Operands(dirs, vals)
  {
    hide Strip, Spans, AllUsable, Usable, DirOperands;
    sb, na := "", [];
    var prev: nat := 0;
    var ds := dirs;
    while ds != []
      invariant prev <= |spec| && Spans(ds, prev, |spec|) && AllUsable(ds, |vals|)
      invariant Build(spec, 0, dirs) == sb + Build(spec, prev, ds)
      invariant Operands(dirs, vals) == na + Operands(ds, vals)
      decreases |ds|
    {
      var d := ds[0];
      BuildStep(spec, prev, ds, sb);
      OperandStep(ds, vals, na);
      var tail := StripIndexes(spec[d.start + 1..d.end - 1]);
      var ops := Emit(d, vals);
      sb := sb + spec[prev..d.start] + "%" + tail + [NewVerb(d.verb)];
      na := na + ops;
      prev := d.end;
      ds := ds[1..];
    }
    sb := sb + spec[prev..];
  }

  method RewriteTypeVerbs<V>(spec: string, vals: seq<V>) returns (out: Result<V>)
    ensures out == Rewrite(spec, vals)
  {
    var dirs, v := ScanSpec(spec);
    ScanSpans(spec, 0, Vars(0, 0, false));
    var ok := AllResolve(dirs, |vals|);
    if !ok { return Done(spec, ShownAll(vals)); }
    var sb, na := Rebuild(spec, dirs, vals);
    if !v.reordered {
      if v.maxArg < 0 || v.maxArg > |vals| { return Panic; }
      na := na + ShownAll(vals)[v.maxArg..];
    }
    return Done(sb, na);
  }
}
