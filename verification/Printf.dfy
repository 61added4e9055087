/** What a format prints over its operands, as fmt's doPrintf assigns them. */
module Printf {
  import opened Basics
  import opened Format

  /** An operand of the host call: a script value as such, or the pre-rendered text of its
      type or its address. */
  datatype Arg<V> = Shown(v: V) | TypeText(v: V) | AddrText(v: V)

  /** A width or precision in effect; an operand may be missing. */
  datatype Amount<V> = Absent | Written(ds: string) | FromOperand(op: Option<Arg<V>>)

  datatype Event<V> =
    | Plain(s: string)
    | Percent(width: Amount<V>, prec: Amount<V>)                  // %%: prints %, but reads its stars
    | Verb(flags: string, width: Amount<V>, prec: Amount<V>, verb: char, op: Arg<V>)
    | BadIndex(width: Amount<V>, prec: Amount<V>, verb: char)
    | Missing(width: Amount<V>, prec: Amount<V>, verb: char)
    | Extra(ops: seq<Arg<V>>)

  /** The cursor over the operands: the next one, and whether every index so far in the
      current directive was in range. */
  datatype Cursor = Cursor(next: nat, good: bool)

  function At<V>(ops: seq<Arg<V>>, i: nat): Option<Arg<V>> {
    if i < |ops| then Some(ops[i]) else None
  }

  /** argNumber: an explicit index moves the cursor if that operand exists. */
  function Move(c: Cursor, idx: Option<string>, n: nat): Cursor
    requires IndexOk(idx)
  {
    if idx.None? then c
    else if Number(idx.value) <= n then Cursor(Number(idx.value) - 1, c.good)
    else Cursor(c.next, false)
  }

  function SizeAmount<V>(s: Size, ops: seq<Arg<V>>, c: Cursor): (Amount<V>, Cursor)
    requires s.Star? ==> IndexOk(s.idx)
  {
    match s
    case NoSize => (Absent, c)
    case Fixed(ds) => (Written(ds), c)
    case Star(idx) =>
      var m := Move(c, idx, |ops|);
      (FromOperand(At(ops, m.next)), if m.next < |ops| then m.(next := m.next + 1) else m)
  }

  function OptAmount<V>(p: Option<Size>, ops: seq<Arg<V>>, c: Cursor): (Amount<V>, Cursor)
    requires p.Some? && p.value.Star? ==> IndexOk(p.value.idx)
  {
    if p.Some? then SizeAmount(p.value, ops, c) else (Absent, c)
  }

  /** One directive: what it prints and where the next one starts reading. */
  function Print1<V>(d: Directive, ops: seq<Arg<V>>, next: nat): (Event<V>, nat)
    requires DirectiveOk(d)
  {
    var (w, c1) := SizeAmount(d.width, ops, Cursor(next, true));
    var (p, c2) := OptAmount(d.prec, ops, c1);
    var c := Move(c2, d.idx, |ops|);
    if d.verb == '%' then (Percent(w, p), c.next)
    else if !c.good then (BadIndex(w, p, d.verb), c.next)
    else if c.next >= |ops| then (Missing(w, p, d.verb), c.next)
    else (Verb(d.flags, w, p, d.verb, ops[c.next]), c.next + 1)
  }

  predicate UsesIndex(d: Directive) {
    d.idx.Some? || (d.width.Star? && d.width.idx.Some?)
      || (d.prec.Some? && d.prec.value.Star? && d.prec.value.idx.Some?)
  }

  /** The whole format; operands left over are reported unless an index reordered them. */
  function Print<V>(items: seq<Item>, ops: seq<Arg<V>>, next: nat, reordered: bool): seq<Event<V>>
    requires ItemsOk(items)
  {
    if items == [] then (if !reordered && next < |ops| then [Extra(ops[next..])] else [])
    else
      match items[0]
      case Lit(s) => [Plain(s)] + Print(items[1..], ops, next, reordered)
      case Dir(d) =>
        var (e, n) := Print1(d, ops, next);
        [e] + Print(items[1..], ops, n, reordered || UsesIndex(d))
  }

  /** What the host prints for a string; None when some directive is malformed. */
  function HostPrint<V>(spec: string, ops: seq<Arg<V>>): Option<seq<Event<V>>> {
    var items := HostParse(spec);
    if items.None? || !ItemsOk(items.value) then None else Some(Print(items.value, ops, 0, false))
  }
}
