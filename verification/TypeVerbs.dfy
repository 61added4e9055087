/** rewriteTypeVerbs: %T and %p become %s over pre-rendered text, every directive is
    renumbered to sequential order and the operand list is rebuilt to match. */
module TypeVerbs {
  import opened Basics
  import opened Format
  import opened Printf

  /** A directive as the scanner records it: its span, the operand it prints, those its stars
      read, and whether it mixes stars and indexes. */
  datatype Found = Found(start: nat, end: nat, pos: int, verb: char, stars: seq<int>, starIdx: bool)

  /** The scanner's variables that live across directives: the next implicit operand, the
      highest operand count so far, and whether an index was met. */
  datatype Vars = Vars(argNum: int, maxArg: int, reordered: bool)

  /** And those of one directive. */
  datatype St = St(v: Vars, pos: int, stars: seq<int>, star: bool, indexed: bool)

  datatype Result<V> = Panic | Done(spec: string, ops: seq<Arg<V>>)

  // ---- The scanner -----------------------------------------------------------------------

  /** strconv.Atoi; None for what is no number of the host's int. */
  function Atoi(s: string): Option<int> {
    var neg := s != "" && s[0] == '-';
    var ds := if s != "" && (s[0] == '-' || s[0] == '+') then s[1..] else s;
    if ds == "" || !Digits(ds) then None
    else if Number(ds) < 0x8000_0000_0000_0000 || (neg && Number(ds) == 0x8000_0000_0000_0000) then
      Some(if neg then 0 - Number(ds) else Number(ds))
    else None
  }

  /** The first position from `i` on that holds `c`, or the length. */
  function Find(s: string, c: char, i: nat): (j: nat)
    requires i <= |s|
    ensures i <= j <= |s| && (j < |s| ==> s[j] == c)
    decreases |s| - i
  {
    if i == |s| || s[i] == c then i else Find(s, c, i + 1)
  }

  predicate IsSkipped(c: char) { IsFlag(c) || c == '.' || IsDigit(c) }

  function AfterIndex(st: St, text: string): St {
    var n := Atoi(text);
    if n.Some? then st.(pos := n.value - 1, v := Vars(n.value, st.v.maxArg, true), indexed := true) else st
  }

  function Higher(a: int, b: int): int { if a > b then a else b }

  function AfterStar(st: St): St {
    if st.pos < 0 then
      st.(stars := st.stars + [st.v.argNum], star := true,
          v := Vars(st.v.argNum + 1, Higher(st.v.argNum + 1, st.v.maxArg), st.v.reordered))
    else st.(star := true)
  }

  /** The inner loop: flags, digits, dots, stars and bracketed indexes, up to the verb. */
  function ScanTail(spec: string, i: nat, st: St): (r: (St, nat))
    ensures r.1 >= i
    decreases |spec| - i
  {
    if i >= |spec| then (st, i)
    else if spec[i] == '[' then
      var k := Find(spec, ']', i + 1);
      ScanTail(spec, k + 1, AfterIndex(st, spec[i + 1..k]))
    else if spec[i] == '*' then ScanTail(spec, i + 1, AfterStar(st))
    else if IsSkipped(spec[i]) then ScanTail(spec, i + 1, st)
    else (st, i)
  }

  function Fresh(v: Vars): St {
    St(v, -1, [], false, false)
  }

  /** The verb: what is recorded for the directive between `i` and `e`, and the variables
      after it. A %% is not recorded and takes no operand, but keeps what its stars and
      indexes did to the variables. */
  function Close(st: St, i: nat, e: nat, verb: char): (seq<Found>, Vars) {
    if verb == '%' then ([], st.v)
    else
      var pos := if st.pos < 0 then st.v.argNum else st.pos;
      ([Found(i, e, pos, verb, st.stars, st.star && st.indexed)],
       Vars(if st.pos < 0 then st.v.argNum + 1 else st.v.argNum, Higher(pos + 1, st.v.maxArg), st.v.reordered))
  }

  function Prepend(fs: seq<Found>, rest: (seq<Found>, Vars)): (seq<Found>, Vars) {
    (fs + rest.0, rest.1)
  }

  /** The outer loop: the directives found from `i` on, and the variables at the end. */
  function ScanAll(spec: string, i: nat, v: Vars): (seq<Found>, Vars)
    requires i <= |spec|
    decreases |spec| - i
  {
    var j := Find(spec, '%', i);
    if j + 1 >= |spec| then ([], v)
    else
      var (st, e) := ScanTail(spec, j + 1, Fresh(v));
      if e >= |spec| then ([], st.v)
      else
        var (fs, v') := Close(st, j, e + 1, spec[e]);
        Prepend(fs, ScanAll(spec, e + 1, v'))
  }

  // ---- The rebuild -----------------------------------------------------------------------

  predicate Usable(d: Found, n: nat) {
    !d.starIdx && 0 <= d.pos < n && forall k :: 0 <= k < |d.stars| ==> 0 <= d.stars[k] < n
  }

  /** A directive's text with its bracketed indexes taken out. */
  function Strip(tail: string, k: nat): string
    decreases |tail| - k
  {
    if k >= |tail| then ""
    else if tail[k] == '[' then Strip(tail, Find(tail, ']', k) + 1)
    else [tail[k]] + Strip(tail, k + 1)
  }

  function NewVerb(c: char): char {
    if c == 'T' || c == 'p' then 's' else c
  }

  /** The recorded spans follow each other between `prev` and `n`. */
  predicate Spans(ds: seq<Found>, prev: nat, n: nat)
    decreases |ds|
  {
    ds == [] || (prev <= ds[0].start && ds[0].start + 1 < ds[0].end <= n && Spans(ds[1..], ds[0].end, n))
  }

  lemma SpansFrom(ds: seq<Found>, prev: nat, later: nat, n: nat)
    requires Spans(ds, later, n) && prev <= later
    ensures Spans(ds, prev, n)
  {
  }

  lemma NoSpans(prev: nat, n: nat)
    ensures Spans([], prev, n)
  {
  }

  lemma SpansOn(fs: seq<Found>, rest: seq<Found>, prev: nat, later: nat, n: nat)
    requires Spans(rest, later, n) && prev <= later <= n
    requires fs == [] || (|fs| == 1 && prev <= fs[0].start && fs[0].start + 1 < fs[0].end == later)
    ensures Spans(fs + rest, prev, n)
  {
    SpansFrom(rest, prev, later, n);
    if fs == [] { assert fs + rest == rest; } else { assert (fs + rest)[1..] == rest; }
  }

  lemma {:induction false} ScanSpans(spec: string, i: nat, v: Vars)
    requires i <= |spec|
    ensures Spans(ScanAll(spec, i, v).0, i, |spec|)
    decreases |spec| - i
  {
    hide Find, ScanTail, Spans;
    var j := Find(spec, '%', i);
    if j + 1 < |spec| {
      var (st, e) := ScanTail(spec, j + 1, Fresh(v));
      if e < |spec| {
        var (fs, v') := Close(st, j, e + 1, spec[e]);
        ScanSpans(spec, e + 1, v');
        SpansOn(fs, ScanAll(spec, e + 1, v').0, i, e + 1, |spec|);
        return;
      }
    }
    NoSpans(i, |spec|);
  }

  function Build(spec: string, prev: nat, ds: seq<Found>): string
    requires prev <= |spec|
    requires Spans(ds, prev, |spec|)
    decreases |ds|
  {
    if ds == [] then spec[prev..]
    else
      var d := ds[0];
      spec[prev..d.start] + "%" + Strip(spec[d.start + 1..d.end - 1], 0) + [NewVerb(d.verb)]
        + Build(spec, d.end, ds[1..])
  }

  function Rendered<V>(verb: char, v: V): Arg<V> {
    if verb == 'T' then TypeText(v) else if verb == 'p' then AddrText(v) else Shown(v)
  }

  function ShownAll<V>(vals: seq<V>): (r: seq<Arg<V>>)
    ensures |r| == |vals| && forall k :: 0 <= k < |vals| ==> r[k] == Shown(vals[k])
  {
    seq(|vals|, k requires 0 <= k < |vals| => Shown(vals[k]))
  }

  predicate AllUsable(ds: seq<Found>, n: nat) {
    forall k :: 0 <= k < |ds| ==> Usable(ds[k], n)
  }

  function DirOperands<V>(d: Found, vals: seq<V>): seq<Arg<V>>
    requires Usable(d, |vals|)
  {
    seq(|d.stars|, k requires 0 <= k < |d.stars| => Shown(vals[d.stars[k]])) + [Rendered(d.verb, vals[d.pos])]
  }

  function Operands<V>(ds: seq<Found>, vals: seq<V>): seq<Arg<V>>
    requires AllUsable(ds, |vals|)
  {
    if ds == [] then [] else DirOperands(ds[0], vals) + Operands(ds[1..], vals)
  }

  /** The rewritten string and its operands; the string as it is when some directive mixes
      stars and indexes or reads past the operands. Slicing off the unread operands panics
      when a skipped directive's star claimed one that is not there. */
  function Rewrite<V>(spec: string, vals: seq<V>): Result<V> {
    var (ds, v) := ScanAll(spec, 0, Vars(0, 0, false));
    ScanSpans(spec, 0, Vars(0, 0, false));
    if !AllUsable(ds, |vals|) then Done(spec, ShownAll(vals))
    else if v.reordered then Done(Build(spec, 0, ds), Operands(ds, vals))
    else if v.maxArg < 0 || v.maxArg > |vals| then Panic
    else Done(Build(spec, 0, ds), Operands(ds, vals) + ShownAll(vals)[v.maxArg..])
  }
}
