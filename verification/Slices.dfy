/** Slices of zero-size elements are kept as counts when they are large; make, append and copy
    agree with Go's rules whichever way a slice is held. */
module Slices {
  import opened Basics

  const MAX_INT: int := 0x7FFF_FFFF_FFFF_FFFF
  const MAX_STORED: int := 0x1_0000_0000

  /** int64 addition. */
  function Wrap64(x: int): (r: int)
    ensures -MAX_INT - 1 <= r <= MAX_INT
  {
    (x + MAX_INT + 1) % 0x1_0000_0000_0000_0000 - MAX_INT - 1
  }

  /** How a slice is held: its elements stored, or only counted. */
  datatype Rep = Stored(len: int, cap: int) | Counted(n: int, capN: int)

  predicate Virtual(r: Rep) { r.Counted? && (r.n > 0 || r.capN > 0) }

  function Len(r: Rep): int {
    if Virtual(r) then r.n else if r.Stored? then r.len else 0
  }

  function Cap(r: Rep): int {
    if Virtual(r) then r.capN else if r.Stored? then r.cap else 0
  }

  predicate Fits(r: Rep) {
    match r
    case Stored(len, cap) => 0 <= len <= cap <= MAX_INT
    case Counted(n, cap) => 0 <= n <= cap <= MAX_INT
  }

  /** Length and capacity, or the panic. */
  datatype Outcome<T> = Panic(what: string) | Got(value: T)

  // ---- make ------------------------------------------------------------------------------

  function Make(n: int, cap: int): Outcome<Rep> {
    if (n > MAX_STORED || cap > MAX_STORED) && n >= 0 && cap >= n then Got(Counted(n, cap))
    else if n < 0 || n > MAX_STORED then Panic("makeslice: len out of range")
    else if cap < n || cap > MAX_STORED then Panic("makeslice: cap out of range")
    else Got(Stored(n, cap))
  }

  /** Elements of size zero: only the order of 0, n and cap matters, and the length is judged
      before the capacity. */
  function GoMake(n: int, cap: int): Outcome<(int, int)> {
    if n < 0 then Panic("makeslice: len out of range")
    else if cap < n then Panic("makeslice: cap out of range")
    else Got((n, cap))
  }

  function Seen(o: Outcome<Rep>): Outcome<(int, int)> {
    match o case Panic(w) => Panic(w) case Got(r) => Got((Len(r), Cap(r)))
  }

  /** make agrees with Go wherever the length is no more than 2^32 or the capacity suffices; past
      that, of a bad length and a bad capacity it names the length. */
  lemma MakeIff(n: int, cap: int)
    ensures Seen(Make(n, cap)) == GoMake(n, cap) <==> !(n > MAX_STORED && cap < n)
  {
  }

  // ---- append ----------------------------------------------------------------------------

  function LenOf(s: Option<Rep>): int { if s.Some? then Len(s.value) else 0 }
  function CapOf(s: Option<Rep>): int { if s.Some? then Cap(s.value) else 0 }

  /** append of `added` elements, or of a counted slice spread. */
  function Append(dst: Option<Rep>, added: nat, spread: Option<Rep>): Outcome<Rep> {
    if (dst.Some? && Virtual(dst.value)) || spread.Some? then
      var nn := Wrap64(LenOf(dst) + added);
      var mm := if spread.Some? then Wrap64(nn + Len(spread.value)) else nn;
      if mm < 0 then Panic("growslice: len out of range")
      else Got(Counted(mm, if mm > CapOf(dst) then mm else CapOf(dst)))
    else
      var len := LenOf(dst) + added;
      Got(Stored(len, if len > CapOf(dst) then len else CapOf(dst)))
  }

  /** growslice, for elements of size zero: the capacity becomes exactly what is needed. */
  function GoAppend(len: int, cap: int, k: int): Outcome<(int, int)> {
    if len + k > MAX_INT then Panic("growslice: len out of range")
    else Got((len + k, if len + k > cap then len + k else cap))
  }

  predicate FitsOpt(s: Option<Rep>) { s.Some? ==> Fits(s.value) }

  lemma WrapOf(x: int)
    requires 0 <= x <= 2 * MAX_INT
    ensures Wrap64(x) == if x <= MAX_INT then x else x - 0x1_0000_0000_0000_0000
  {
  }

  /** However the operands are held, append gives Go's length and capacity and panics exactly
      when the length does not fit; a call spreads a slice or lists elements, not both, and the
      listed elements are in memory. */
  lemma AppendAgrees(dst: Option<Rep>, added: nat, spread: Option<Rep>)
    requires FitsOpt(dst) && FitsOpt(spread) && (spread.Some? ==> added == 0)
    requires added <= MAX_INT && ((dst.None? || !Virtual(dst.value)) && spread.None? ==> LenOf(dst) + added <= MAX_INT)
    ensures Seen(Append(dst, added, spread)) == GoAppend(LenOf(dst), CapOf(dst), added + LenOf(spread))
    ensures Append(dst, added, spread).Got? ==> Fits(Append(dst, added, spread).value)
  {
    hide Wrap64;
    OptFits(dst);
    OptFits(spread);
    WrapOf(LenOf(dst) + added);
    WrapOf(LenOf(dst) + LenOf(spread));
  }

  lemma OptFits(s: Option<Rep>)
    requires FitsOpt(s)
    ensures 0 <= LenOf(s) <= CapOf(s) <= MAX_INT
  {
  }

  // ---- Sequences of operations ----------------------------------------------------------------

  /** What is done to a slice: elements listed, a counted slice spread, a reslice with two or three
      indexes, or a copy into it. */
  datatype Op = Grow(added: nat) | Spread(r: Rep) | Reslice(lo: int, hi: int, max: Option<int>) | CopyFrom(src: Rep)

  /** What can be seen of it: the new length and capacity, the count of a copy, or a panic. */
  datatype Event = Bounds(len: int, cap: int) | Copied(n: int) | Died(what: string)

  /** Re-slicing keeps the way the slice is held. */
  function Cut(r: Rep, lo: int, hi: int, max: Option<int>): Outcome<Rep> {
    var m := if max.Some? then max.value else Cap(r);
    if 0 <= lo <= hi <= m <= Cap(r) then Got(if Virtual(r) then Counted(hi - lo, m - lo) else Stored(hi - lo, m - lo))
    else Panic("slice bounds out of range")
  }

  function CopyCount(dst: Rep, src: Rep): int {
    if Len(src) < Len(dst) then Len(src) else Len(dst)
  }

  function Done(o: Outcome<Rep>): (Event, Option<Rep>) {
    match o case Panic(w) => (Died(w), None) case Got(s) => (Bounds(Len(s), Cap(s)), Some(s))
  }

  /** What one operation shows, and the slice after it unless it panics. */
  function Do(r: Rep, op: Op): (Event, Option<Rep>) {
    match op
    case Grow(k) => Done(Append(Some(r), k, None))
    case Spread(x) => Done(Append(Some(r), 0, Some(x)))
    case Reslice(lo, hi, max) => Done(Cut(r, lo, hi, max))
    case CopyFrom(src) => (Copied(CopyCount(r, src)), Some(r))
  }

  function Trace(r: Rep, ops: seq<Op>): seq<Event>
    decreases |ops|
  {
    if ops == [] then []
    else
      var d := Do(r, ops[0]);
      [d.0] + if d.1.Some? then Trace(d.1.value, ops[1..]) else []
  }

  /** make, then the operations. */
  function MakeTrace(n: int, cap: int, ops: seq<Op>): seq<Event> {
    match Make(n, cap) case Panic(w) => [Died(w)] case Got(r) => [Bounds(Len(r), Cap(r))] + Trace(r, ops)
  }

  // ---- The same in Go, which knows lengths only ------------------------------------------------------

  datatype GoOp = GoGrow(k: int) | GoReslice(lo: int, hi: int, max: Option<int>) | GoCopyFrom(k: int)

  /** A spread appends as many elements as it has, a copy offers as many. */
  function Lengths(op: Op): GoOp {
    match op
    case Grow(k) => GoGrow(k)
    case Spread(x) => GoGrow(Len(x))
    case Reslice(lo, hi, max) => GoReslice(lo, hi, max)
    case CopyFrom(src) => GoCopyFrom(Len(src))
  }

  function AllLengths(ops: seq<Op>): seq<GoOp> {
    seq(|ops|, i requires 0 <= i < |ops| => Lengths(ops[i]))
  }

  function GoDone(o: Outcome<(int, int)>): (Event, Option<(int, int)>) {
    match o case Panic(w) => (Died(w), None) case Got(b) => (Bounds(b.0, b.1), Some(b))
  }

  function GoDo(b: (int, int), op: GoOp): (Event, Option<(int, int)>) {
    match op
    case GoGrow(k) => GoDone(GoAppend(b.0, b.1, k))
    case GoReslice(lo, hi, max) =>
      var m := if max.Some? then max.value else b.1;
      GoDone(if 0 <= lo <= hi <= m <= b.1 then Got((hi - lo, m - lo)) else Panic("slice bounds out of range"))
    case GoCopyFrom(k) => (Copied(if k < b.0 then k else b.0), Some(b))
  }

  function GoTrace(b: (int, int), ops: seq<GoOp>): seq<Event>
    decreases |ops|
  {
    if ops == [] then []
    else
      var d := GoDo(b, ops[0]);
      [d.0] + if d.1.Some? then GoTrace(d.1.value, ops[1..]) else []
  }

  function GoMakeTrace(n: int, cap: int, ops: seq<GoOp>): seq<Event> {
    match GoMake(n, cap) case Panic(w) => [Died(w)] case Got(b) => [Bounds(b.0, b.1)] + GoTrace(b, ops)
  }

  // ---- They show the same ------------------------------------------------------------------------------

  /** Listed elements are values in memory, so a stored slice with them never outgrows int64. */
  predicate Feasible(r: Rep, op: Op) {
    match op
    case Grow(k) => k <= MAX_INT && (!Virtual(r) ==> Len(r) + k <= MAX_INT)
    case Spread(x) => Fits(x)
    case Reslice(_, _, _) => true
    case CopyFrom(x) => Fits(x)
  }

  predicate AllFeasible(r: Rep, ops: seq<Op>)
    decreases |ops|
  {
    ops != [] ==> Feasible(r, ops[0]) && (Do(r, ops[0]).1.Some? ==> AllFeasible(Do(r, ops[0]).1.value, ops[1..]))
  }

  lemma DoAgrees(r: Rep, op: Op)
    requires Fits(r) && Feasible(r, op)
    ensures var d, e := Do(r, op), GoDo((Len(r), Cap(r)), Lengths(op));
      d.0 == e.0 && (d.1.Some? <==> e.1.Some?)
        && (d.1.Some? ==> Fits(d.1.value) && e.1.value == (Len(d.1.value), Cap(d.1.value)))
  {
    hide Append, GoAppend;
    match op
    case Grow(k) => AppendAgrees(Some(r), k, None);
    case Spread(x) => AppendAgrees(Some(r), 0, Some(x));
    case Reslice(_, _, _) =>
    case CopyFrom(_) =>
  }

  lemma {:induction false} TraceAgrees(r: Rep, ops: seq<Op>)
    requires Fits(r) && AllFeasible(r, ops)
    ensures Trace(r, ops) == GoTrace((Len(r), Cap(r)), AllLengths(ops))
    decreases |ops|
  {
    hide Do, GoDo, Fits, Feasible;
    if ops != [] {
      DoAgrees(r, ops[0]);
      assert AllLengths(ops)[1..] == AllLengths(ops[1..]);
      if Do(r, ops[0]).1.Some? { TraceAgrees(Do(r, ops[0]).1.value, ops[1..]); }
    }
  }

  lemma MadeFits(n: int, cap: int)
    requires n <= MAX_INT && cap <= MAX_INT
    ensures Make(n, cap).Got? ==> Fits(Make(n, cap).value)
  {
  }

  /** Every sequence of make, append, reslice and copy shows the lengths, capacities, counts and
      panics that Go's rules give from lengths alone, except that of a huge length and a smaller
      capacity make names the length. */
  lemma RunsLikeGo(n: int, cap: int, ops: seq<Op>)
    requires -MAX_INT - 1 <= n <= MAX_INT && -MAX_INT - 1 <= cap <= MAX_INT
    requires Make(n, cap).Got? ==> AllFeasible(Make(n, cap).value, ops)
    ensures MakeTrace(n, cap, ops) == GoMakeTrace(n, cap, AllLengths(ops)) <==> !(n > MAX_STORED && cap < n)
  {
    hide Trace, GoTrace, AllFeasible, AllLengths;
    MakeIff(n, cap);
    MadeFits(n, cap);
    if Make(n, cap).Got? { TraceAgrees(Make(n, cap).value, ops); }
  }

  /** So no sequence of operations tells a counted slice from a stored one: also where one side
      spreads a counted slice and the other lists the elements of a stored one. */
  lemma HeldAlike(a: Rep, b: Rep, ops: seq<Op>, ops': seq<Op>)
    requires Fits(a) && Fits(b) && Len(a) == Len(b) && Cap(a) == Cap(b) && AllFeasible(a, ops) && AllFeasible(b, ops')
    requires |ops| == |ops'| && forall i :: 0 <= i < |ops| ==> Lengths(ops[i]) == Lengths(ops'[i])
    ensures Trace(a, ops) == Trace(b, ops')
  {
    hide Trace, GoTrace, AllFeasible, Lengths, Fits;
    TraceAgrees(a, ops);
    TraceAgrees(b, ops');
    assert AllLengths(ops) == AllLengths(ops');
  }

  // ---- copy ----------------------------------------------------------------------------------

  /** A window of a backing array. */
  datatype Window<T> = Window(data: array<T>, off: nat, len: nat)

  ghost predicate Inside<T>(w: Window<T>) {
    w.off + w.len <= w.data.Length
  }

  ghost function Elems<T>(w: Window<T>): seq<T>
    requires Inside(w)
    reads w.data
  {
    w.data[w.off..w.off + w.len]
  }

  /** copy on stored slices goes through a snapshot, so it is exact however the windows overlap. */
  method Copy<T>(dst: Window<T>, src: Window<T>) returns (n: nat)
    requires Inside(dst) && Inside(src)
    modifies dst.data
    ensures n == if src.len < dst.len then src.len else dst.len
    ensures dst.data[dst.off..dst.off + n] == old(Elems(src))[..n]
    ensures dst.data[..dst.off] == old(dst.data[..dst.off])
    ensures dst.data[dst.off + n..] == old(dst.data[dst.off + n..])
  {
    n := dst.len;
    if src.len < n { n := src.len; }
    var tmp: seq<T> := [];
    for i := 0 to n
      modifies {}
      invariant tmp == old(Elems(src))[..i]
    {
      tmp := tmp + [src.data[src.off + i]];
    }
    for i := 0 to n
      invariant dst.data[dst.off..dst.off + i] == tmp[..i]
      invariant dst.data[..dst.off] == old(dst.data[..dst.off])
      invariant dst.data[dst.off + i..] == old(dst.data[dst.off + i..])
    {
      ghost var rest := dst.data[dst.off + i..];
      dst.data[dst.off + i] := tmp[i];
      assert dst.data[dst.off + i + 1..] == rest[1..];
    }
  }

  /** A counted source fills with its one element. */
  method Fill<T>(dst: Window<T>, srcLen: nat, zero: T) returns (n: nat)
    requires Inside(dst)
    modifies dst.data
    ensures n == if srcLen < dst.len then srcLen else dst.len
    ensures forall k :: 0 <= k < dst.data.Length ==>
      dst.data[k] == if dst.off <= k < dst.off + n then zero else old(dst.data[k])
  {
    n := dst.len;
    if srcLen < n { n := srcLen; }
    for i := 0 to n
      invariant forall k :: 0 <= k < dst.data.Length ==>
        dst.data[k] == if dst.off <= k < dst.off + i then zero else old(dst.data[k])
    {
      dst.data[dst.off + i] := zero;
    }
  }
}
