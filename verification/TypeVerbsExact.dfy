/** For every well-formed format, stars and indexes on %% included, exactly when the directive
    rewriting keeps what is printed over every list of `n` operands. The condition follows the
    two cursors, fmt's over the operands and fmt's over the rebuilt list, by position. */
module TypeVerbsExact {
  import opened Basics
  import opened Format
  import opened Printf
  import opened TypeVerbs
  import opened TypeVerbsLaw
  import opened TypeVerbsMeaning

  // ---- The rebuilt list, by position ---------------------------------------------------------

  /** The operands numbered. */
  function Iota(n: nat): (r: seq<nat>)
    ensures |r| == n && forall k :: 0 <= k < n ==> r[k] == k
  {
    seq(n, k => k)
  }

  predicate AllWithin(slots: seq<Arg<nat>>, n: nat) {
    forall k :: 0 <= k < |slots| ==> slots[k].v < n
  }

  /** A numbered operand replaced by the operand itself, rendered alike. */
  function Filled<V>(a: Arg<nat>, vals: seq<V>): Arg<V>
    requires a.v < |vals|
  {
    match a
    case Shown(i) => Shown(vals[i])
    case TypeText(i) => TypeText(vals[i])
    case AddrText(i) => AddrText(vals[i])
  }

  function FillAll<V>(slots: seq<Arg<nat>>, vals: seq<V>): (r: seq<Arg<V>>)
    requires AllWithin(slots, |vals|)
    ensures |r| == |slots| && forall k :: 0 <= k < |slots| ==> r[k] == Filled(slots[k], vals)
  {
    seq(|slots|, k requires 0 <= k < |slots| => Filled(slots[k], vals))
  }

  function Found0(items: seq<Item>): (seq<Found>, Vars)
    requires ItemsOk(items)
  {
    FoundIn(items, 0, START)
  }

  /** The scan may be used over `n` operands, and slicing off the unread ones works. */
  predicate Rebuilds(items: seq<Item>, n: nat)
    requires ItemsOk(items)
  {
    AllUsable(Found0(items).0, n) && (Found0(items).1.reordered || 0 <= Found0(items).1.maxArg <= n)
  }

  /** Which operand, and rendered how, stands where in the rebuilt list. */
  function Slots(items: seq<Item>, n: nat): seq<Arg<nat>>
    requires ItemsOk(items) && Rebuilds(items, n)
  {
    var (fs, v) := Found0(items);
    Operands(fs, Iota(n)) + if v.reordered then [] else ShownAll(Iota(n))[v.maxArg..]
  }

  lemma {:induction false} OperandsFilled<V>(fs: seq<Found>, vals: seq<V>)
    requires AllUsable(fs, |vals|)
    ensures AllWithin(Operands(fs, Iota(|vals|)), |vals|)
    ensures Operands(fs, vals) == FillAll(Operands(fs, Iota(|vals|)), vals)
  {
    if fs != [] {
      hide Operands;
      OperandsFirst(fs, vals);
      OperandsFirst(fs, Iota(|vals|));
      OperandsFilled(fs[1..], vals);
      DirOperandsFilled(fs[0], vals);
    }
  }

  lemma OperandsFirst<V>(fs: seq<Found>, vals: seq<V>)
    requires AllUsable(fs, |vals|) && fs != []
    ensures Usable(fs[0], |vals|) && AllUsable(fs[1..], |vals|)
    ensures Operands(fs, vals) == DirOperands(fs[0], vals) + Operands(fs[1..], vals)
  {
    assert Usable(fs[0], |vals|);
    assert forall k :: 0 <= k < |fs[1..]| ==> fs[1..][k] == fs[k + 1];
  }

  lemma DirOperandsFilled<V>(f: Found, vals: seq<V>)
    requires Usable(f, |vals|)
    ensures AllWithin(DirOperands(f, Iota(|vals|)), |vals|)
    ensures DirOperands(f, vals) == FillAll(DirOperands(f, Iota(|vals|)), vals)
  {
  }

  lemma SlotsWithin(items: seq<Item>, n: nat)
    requires ItemsOk(items) && Rebuilds(items, n)
    ensures AllWithin(Slots(items, n), n)
  {
    hide FoundIn;
    OperandsFilled(Found0(items).0, Iota(n));
  }

  /** What the rewriting returns, for any format. */
  lemma RewriteIs<V>(items: seq<Item>, vals: seq<V>)
    requires ItemsOk(items)
    ensures if !AllUsable(Found0(items).0, |vals|) then
        Rewrite(Render(items), vals) == Done(Render(items), ShownAll(vals))
      else if !Rebuilds(items, |vals|) then Rewrite(Render(items), vals) == Panic
      else
        && Unmixed(items) && AllWithin(Slots(items, |vals|), |vals|)
        && Rewrite(Render(items), vals) == Done(Render(Renumber(items)), FillAll(Slots(items, |vals|), vals))
  {
    hide FoundIn, Matches, ScanAll, AllUsable, Renumber, Render, Operands, Build, Rewrite;
    var n := |vals|;
    ScanOf(items);
    if !AllUsable(Found0(items).0, n) {
      RewriteSkips(items, vals);
    } else {
      UsableIsClean(items, 0, Found0(items).0, n);
      CleanIsUnmixed(items);
      RewriteRuns(items, vals);
      if Rebuilds(items, n) {
        SlotsWithin(items, n);
        SlotsFill(items, vals);
      }
    }
  }

  lemma SlotsFill<V>(items: seq<Item>, vals: seq<V>)
    requires ItemsOk(items) && Rebuilds(items, |vals|) && AllWithin(Slots(items, |vals|), |vals|)
    ensures var (fs, v) := Found0(items);
      FillAll(Slots(items, |vals|), vals) == Operands(fs, vals) + if v.reordered then [] else ShownAll(vals)[v.maxArg..]
  {
    hide FoundIn, Operands, AllUsable;
    OperandsFilled(Found0(items).0, vals);
  }

  lemma RewriteRuns<V>(items: seq<Item>, vals: seq<V>)
    requires ItemsOk(items) && AllUsable(Found0(items).0, |vals|) && AllClean(items)
    ensures var (fs, v) := Found0(items);
      Rewrite(Render(items), vals)
      == if !Rebuilds(items, |vals|) then Panic
         else Done(Render(Renumber(items)), Operands(fs, vals) + if v.reordered then [] else ShownAll(vals)[v.maxArg..])
  {
    hide FoundIn, Matches, ScanAll, AllUsable, Renumber, Render, Operands, Build;
    var spec, found := Render(items), Found0(items);
    ScanOf(items);
    BuildItems(spec, 0, 0, items, found.0);
    assert spec[0..0] + Render(Renumber(items)) == Render(Renumber(items));
    assert Operands(found.0, vals) + [] == Operands(found.0, vals);
  }

  // ---- What a directive reads, by position -----------------------------------------------------

  /** The operand a verb prints: none, a bad index, one that is missing, or the one at `i`. */
  datatype Got = NoOperand | Bad | Short | At(i: nat)

  /** What a star reads: no star, nothing there, or the operand at a position. */
  type StarRead = Option<Option<nat>>

  datatype Reads = Reads(width: StarRead, prec: StarRead, op: Got, next: nat)

  function SizeReads(s: Size, n: nat, c: Cursor): (StarRead, Cursor)
    requires s.Star? ==> IndexOk(s.idx)
  {
    if s.Star? then
      var m := Move(c, s.idx, n);
      (Some(if m.next < n then Some(m.next) else None), if m.next < n then m.(next := m.next + 1) else m)
    else (None, c)
  }

  function PrecReads(p: Option<Size>, n: nat, c: Cursor): (StarRead, Cursor)
    requires p.Some? && p.value.Star? ==> IndexOk(p.value.idx)
  {
    if p.Some? then SizeReads(p.value, n, c) else (None, c)
  }

  function ReadsOf(d: Directive, n: nat, next: nat): Reads
    requires DirectiveOk(d)
  {
    var (w, c1) := SizeReads(d.width, n, Cursor(next, true));
    var (p, c2) := PrecReads(d.prec, n, c1);
    var c := Move(c2, d.idx, n);
    if d.verb == '%' then Reads(w, p, NoOperand, c.next)
    else if !c.good then Reads(w, p, Bad, c.next)
    else if c.next >= n then Reads(w, p, Short, c.next)
    else Reads(w, p, At(c.next), c.next + 1)
  }

  predicate StarWithin(r: StarRead, n: nat) {
    r.Some? && r.value.Some? ==> r.value.value < n
  }

  function AmountOf<V>(s: Size, r: StarRead, ops: seq<Arg<V>>): Amount<V>
    requires (s.Star? ==> r.Some?) && StarWithin(r, |ops|)
  {
    match s
    case NoSize => Absent
    case Fixed(ds) => Written(ds)
    case Star(_) => FromOperand(if r.value.Some? then Some(ops[r.value.value]) else None)
  }

  predicate ReadsFit(d: Directive, r: Reads, n: nat) {
    && (d.width.Star? ==> r.width.Some?) && (d.prec.Some? && d.prec.value.Star? ==> r.prec.Some?)
    && StarWithin(r.width, n) && StarWithin(r.prec, n) && (r.op.At? ==> r.op.i < n)
      && (r.op.NoOperand? <==> d.verb == '%')
  }

  function EventOf<V>(d: Directive, r: Reads, ops: seq<Arg<V>>): Event<V>
    requires ReadsFit(d, r, |ops|)
  {
    var w := AmountOf(d.width, r.width, ops);
    var p := if d.prec.Some? then AmountOf(d.prec.value, r.prec, ops) else Absent;
    match r.op
    case NoOperand => Percent(w, p)
    case Bad => BadIndex(w, p, d.verb)
    case Short => Missing(w, p, d.verb)
    case At(i) => Verb(d.flags, w, p, d.verb, ops[i])
  }

  lemma SizeIs<V>(s: Size, ops: seq<Arg<V>>, c: Cursor)
    requires s.Star? ==> IndexOk(s.idx)
    ensures var (r, c') := SizeReads(s, |ops|, c);
      && (s.Star? ==> r.Some?) && StarWithin(r, |ops|)
      && SizeAmount(s, ops, c) == (AmountOf(s, r, ops), c')
  {
    hide Move;
  }

  /** A directive prints what it reads. */
  lemma PrintReads<V>(d: Directive, ops: seq<Arg<V>>, next: nat)
    requires DirectiveOk(d)
    ensures var r := ReadsOf(d, |ops|, next);
      ReadsFit(d, r, |ops|) && Print1(d, ops, next) == (EventOf(d, r, ops), r.next)
  {
    hide Move, SizeAmount, SizeReads, AmountOf, IndexOk;
    var c := Cursor(next, true);
    SizeIs(d.width, ops, c);
    var c1 := SizeReads(d.width, |ops|, c).1;
    if d.prec.Some? { SizeIs(d.prec.value, ops, c1); }
  }

  predicate StarWhole(r: StarRead) { r.Some? ==> r.value.Some? }

  /** Every operand the directive asks for is there. */
  predicate ReadsWhole(r: Reads) {
    StarWhole(r.width) && StarWhole(r.prec) && !r.op.Bad? && !r.op.Short?
  }

  /** Every operand the format asks for is there. */
  predicate WholeFrom(items: seq<Item>, next: nat, n: nat)
    requires ItemsOk(items)
    decreases |items|
  {
    items != [] ==>
      match items[0]
      case Lit(_) => WholeFrom(items[1..], next, n)
      case Dir(d) => ReadsWhole(ReadsOf(d, n, next)) && WholeFrom(items[1..], ReadsOf(d, n, next).next, n)
  }

  lemma SizeNone(s: Size, n: nat, c: Cursor)
    requires s.Star? ==> IndexOk(s.idx)
    ensures !s.Star? ==> SizeReads(s, n, c).0.None?
  {
  }

  lemma EventWhole<V>(d: Directive, ops: seq<Arg<V>>, next: nat)
    requires DirectiveOk(d)
    ensures Whole(Print1(d, ops, next).0) <==> ReadsWhole(ReadsOf(d, |ops|, next))
  {
    hide Move, SizeAmount, SizeReads, IndexOk, Print1;
    PrintReads(d, ops, next);
    SizeNone(d.width, |ops|, Cursor(next, true));
    if d.prec.Some? { SizeNone(d.prec.value, |ops|, SizeReads(d.width, |ops|, Cursor(next, true)).1); }
  }

  lemma {:induction false} WholeIs<V>(items: seq<Item>, ops: seq<Arg<V>>, next: nat, r: bool)
    requires ItemsOk(items)
    ensures AllWhole(Print(items, ops, next, r)) <==> WholeFrom(items, next, |ops|)
    decreases |items|
  {
    hide DirectiveOk, Print1, UsesIndex, Whole, ReadsOf, ReadsWhole;
    if items == [] {
      var es := Print(items, ops, next, r);
      if es != [] { assert es[0].Extra? && AllWhole(es[1..]) by { assert es[1..] == []; } }
      assert AllWhole(es) by { ExtraWhole(ops, next, r); }
    } else if items[0].Lit? {
      WholeCons(Plain(items[0].s), Print(items[1..], ops, next, r));
      PlainWhole<V>(items[0].s);
      WholeIs(items[1..], ops, next, r);
    } else {
      var d := items[0].d;
      var (e, m) := Print1(d, ops, next);
      PrintFirst(items, ops, next, r);
      WholeCons(e, Print(items[1..], ops, m, r || UsesIndex(d)));
      EventWhole(d, ops, next);
      assert m == ReadsOf(d, |ops|, next).next by { PrintReads(d, ops, next); }
      WholeIs(items[1..], ops, m, r || UsesIndex(d));
    }
  }

  lemma PlainWhole<V>(s: string)
    ensures Whole<V>(Plain(s))
  {
  }

  lemma ExtraWhole<V>(ops: seq<Arg<V>>, next: nat, r: bool)
    ensures AllWhole(Print([], ops, next, r))
  {
    var es := Print([], ops, next, r);
    if es != [] { assert es[1..] == [] && AllWhole(es[1..]); }
  }

  // ---- The two cursors ---------------------------------------------------------------------------

  /** The star finds in the rebuilt list what it finds among the operands. */
  predicate SameStar(a: StarRead, b: StarRead, slots: seq<Arg<nat>>) {
    match a
    case None => b.None?
    case Some(None) => b == Some(None)
    case Some(Some(i)) => b.Some? && b.value.Some? && b.value.value < |slots| && slots[b.value.value] == Shown(i)
  }

  /** The renumbered directive, which reads `b` in the rebuilt list, finds what the directive,
      which reads `a`, finds among the operands; %T and %p find the rendered text. */
  predicate SameReads(d: Directive, a: Reads, b: Reads, slots: seq<Arg<nat>>) {
    && SameStar(a.width, b.width, slots) && SameStar(a.prec, b.prec, slots)
    && match a.op
       case NoOperand => b.op.NoOperand?
       case Bad => b.op.Bad? && d.verb != 'T' && d.verb != 'p'
       case Short => b.op.Short? && d.verb != 'T' && d.verb != 'p'
       case At(i) =>
         b.op.At? && b.op.i < |slots|
         && slots[b.op.i] == if d.verb == 'T' then TypeText(i) else if d.verb == 'p' then AddrText(i) else Shown(i)
  }

  /** What is left unread, and reported. */
  function Unread(ops: seq<Arg<nat>>, next: nat, r: bool): seq<Arg<nat>> {
    if !r && next < |ops| then ops[next..] else []
  }

  lemma RenumberedIs(d: Directive)
    requires DirectiveOk(d)
    ensures var q := Renumbered(d);
      && DirectiveOk(q) && q.flags == d.flags && q.width == d.width && q.prec == d.prec
      && q.verb == (if d.verb == '%' then '%' else NewVerb(d.verb)) && (q.verb == '%' <==> d.verb == '%')
      && (d.verb == '%' ==> q == d)
  {
  }

  /** From the given cursors on, the rebuilt list holds at each place the renumbered format reads
      what the format reads there, and what is left over is the same. */
  predicate Lined(items: seq<Item>, slots: seq<Arg<nat>>, next: nat, next': nat, r: bool, r': bool, n: nat)
    requires ItemsOk(items)
    decreases |items|
  {
    if items == [] then Unread(ShownAll(Iota(n)), next, r) == Unread(slots, next', r')
    else
      match items[0]
      case Lit(_) => Lined(items[1..], slots, next, next', r, r', n)
      case Dir(d) =>
        RenumberedIs(d);
        var a, b := ReadsOf(d, n, next), ReadsOf(Renumbered(d), |slots|, next');
        SameReads(d, a, b, slots)
        && Lined(items[1..], slots, a.next, b.next, r || UsesIndex(d), r' || UsesIndex(Renumbered(d)), n)
  }

  lemma SameAmount<V>(s: Size, a: StarRead, b: StarRead, slots: seq<Arg<nat>>, vals: seq<V>)
    requires (s.Star? ==> a.Some? && b.Some?) && StarWithin(a, |vals|) && StarWithin(b, |slots|)
    requires AllWithin(slots, |vals|)
    requires SameStar(a, b, slots)
    ensures AmountOf(s, b, FillAll(slots, vals)) == AmountOf(s, a, ShownAll(vals))
  {
  }

  lemma OnlySameAmount(s: Size, a: StarRead, b: StarRead, slots: seq<Arg<nat>>, n: nat)
    requires (if s.Star? then a.Some? && b.Some? else a.None? && b.None?) && StarWithin(a, n) && StarWithin(b, |slots|)
    requires AmountOf(s, b, slots) == AmountOf(s, a, ShownAll(Iota(n)))
    ensures SameStar(a, b, slots)
  {
  }

  /** Where the reads agree, the events do, over any operands. */
  lemma SameEvent<V>(d: Directive, a: Reads, b: Reads, slots: seq<Arg<nat>>, vals: seq<V>)
    requires DirectiveOk(d) && AllWithin(slots, |vals|) && SameReads(d, a, b, slots)
    requires ReadsFit(d, a, |vals|) && ReadsFit(Renumbered(d), b, |slots|)
    ensures EventOf(Renumbered(d), b, FillAll(slots, vals)) == Prerender(EventOf(d, a, ShownAll(vals)))
  {
    hide DirectiveOk, Renumbered, AmountOf, SameStar, StarWithin;
    RenumberedIs(d);
    SameAmount(d.width, a.width, b.width, slots, vals);
    if d.prec.Some? { SameAmount(d.prec.value, a.prec, b.prec, slots, vals); }
  }

  /** And over numbered operands only there. */
  lemma OnlySameEvent(d: Directive, a: Reads, b: Reads, slots: seq<Arg<nat>>, n: nat)
    requires DirectiveOk(d) && ReadsFit(d, a, n) && ReadsFit(Renumbered(d), b, |slots|)
    requires (!d.width.Star? ==> a.width.None? && b.width.None?)
    requires (!(d.prec.Some? && d.prec.value.Star?) ==> a.prec.None? && b.prec.None?)
    requires EventOf(Renumbered(d), b, slots) == Prerender(EventOf(d, a, ShownAll(Iota(n))))
    ensures SameReads(d, a, b, slots)
  {
    hide DirectiveOk, Renumbered, AmountOf, SameStar, StarWithin;
    RenumberedIs(d);
    OnlySameAmount(d.width, a.width, b.width, slots, n);
    if d.prec.Some? {
      OnlySameAmount(d.prec.value, a.prec, b.prec, slots, n);
    } else {
      assert SameStar(a.prec, b.prec, slots) by { NoStars(slots); }
    }
  }

  lemma NoStars(slots: seq<Arg<nat>>)
    ensures SameStar(None, None, slots)
  {
  }

  lemma UnreadPrints<V>(slots: seq<Arg<nat>>, vals: seq<V>, next: nat, next': nat, r: bool, r': bool)
    requires AllWithin(slots, |vals|)
    requires Unread(ShownAll(Iota(|vals|)), next, r) == Unread(slots, next', r')
    ensures Print([], FillAll(slots, vals), next', r') == PrerenderAll(Print([], ShownAll(vals), next, r))
  {
    var a, b := ShownAll(vals), FillAll(slots, vals);
    var u, v := Unread(ShownAll(Iota(|vals|)), next, r), Unread(slots, next', r');
    if !r && next < |a| {
      assert u[0] == ShownAll(Iota(|vals|))[next];
      assert v != [];
      assert |a[next..]| == |u| == |v| == |b[next'..]|;
      forall k | 0 <= k < |u| ensures a[next..][k] == b[next'..][k] { assert u[k] == v[k]; }
      assert a[next..] == b[next'..];
      assert PrerenderAll([Extra(a[next..])]) == [Extra(a[next..])] by { assert [Extra(a[next..])][1..] == []; }
    } else {
      assert u == [];
      assert !r' ==> next' >= |slots|;
    }
  }

  lemma OnlyUnread(slots: seq<Arg<nat>>, n: nat, next: nat, next': nat, r: bool, r': bool)
    requires Print([], slots, next', r') == PrerenderAll(Print([], ShownAll(Iota(n)), next, r))
    ensures Unread(ShownAll(Iota(n)), next, r) == Unread(slots, next', r')
  {
    var a := ShownAll(Iota(n));
    if !r && next < |a| {
      assert [Extra(a[next..])][1..] == [];
      assert PrerenderAll([Extra(a[next..])]) == [Extra(a[next..])];
      assert Print([], slots, next', r')[0] == Extra(a[next..]);
    }
  }

  lemma PrerenderFirst<V>(es: seq<Event<V>>)
    requires es != []
    ensures PrerenderAll(es)[0] == Prerender(es[0]) && PrerenderAll(es)[1..] == PrerenderAll(es[1..])
  {
  }

  /** In line, the renumbered format prints the same over the rebuilt list. */
  lemma {:induction false} LinedPrints<V>(items: seq<Item>, slots: seq<Arg<nat>>, vals: seq<V>,
      next: nat, next': nat, r: bool, r': bool)
    requires ItemsOk(items) && AllWithin(slots, |vals|) && Lined(items, slots, next, next', r, r', |vals|)
    ensures ItemsOk(Renumber(items))
    ensures Print(Renumber(items), FillAll(slots, vals), next', r')
      == PrerenderAll(Print(items, ShownAll(vals), next, r))
    decreases |items|
  {
    hide DirectiveOk, Print1, UsesIndex, ReadsOf, ReadsFit, SameReads, Renumbered, Prerender, EventOf, AllWithin;
    hide FillAll, ShownAll;
    RenumberOk(items);
    if items == [] {
      UnreadPrints(slots, vals, next, next', r, r');
    } else {
      RenumberFirst(items);
      if items[0].Lit? {
        LinedPrints(items[1..], slots, vals, next, next', r, r');
        PrerenderCons(Plain(items[0].s), Print(items[1..], ShownAll(vals), next, r));
        PlainSame<V>(items[0].s);
      } else {
        var d, ops, all := items[0].d, FillAll(slots, vals), ShownAll(vals);
        RenumberedIs(d);
        var a, b := ReadsOf(d, |vals|, next), ReadsOf(Renumbered(d), |slots|, next');
        PrintReads(d, all, next);
        PrintReads(Renumbered(d), ops, next');
        SameEvent(d, a, b, slots, vals);
        PrintFirst(items, all, next, r);
        PrintFirst(Renumber(items), ops, next', r');
        PrerenderCons(EventOf(d, a, all), Print(items[1..], all, a.next, r || UsesIndex(d)));
        LinedPrints(items[1..], slots, vals, a.next, b.next, r || UsesIndex(d), r' || UsesIndex(Renumbered(d)));
      }
    }
  }

  lemma PlainSame<V>(s: string)
    ensures Prerender<V>(Plain(s)) == Plain(s)
  {
  }

  /** And over numbered operands it prints the same only if in line. */
  lemma {:induction false} PrintsLined(items: seq<Item>, slots: seq<Arg<nat>>, n: nat, next: nat, next': nat, r: bool,
      r': bool)
    requires ItemsOk(items) && ItemsOk(Renumber(items))
    requires Print(Renumber(items), slots, next', r') == PrerenderAll(Print(items, ShownAll(Iota(n)), next, r))
    ensures Lined(items, slots, next, next', r, r', n)
    decreases |items|
  {
    hide DirectiveOk, Print1, UsesIndex, ReadsOf, ReadsFit, SameReads, Renumbered, Prerender, EventOf, ShownAll, Iota;
    if items == [] {
      OnlyUnread(slots, n, next, next', r, r');
    } else {
      RenumberFirst(items);
      var all := ShownAll(Iota(n));
      assert |all| == n by { ManyShown(n); }
      PrerenderFirst(Print(items, all, next, r));
      if items[0].Lit? {
        PrintsLined(items[1..], slots, n, next, next', r, r');
      } else {
        var d := items[0].d;
        RenumberedIs(d);
        var a, b := ReadsOf(d, n, next), ReadsOf(Renumbered(d), |slots|, next');
        PrintReads(d, all, next);
        PrintReads(Renumbered(d), slots, next');
        PrintFirst(items, all, next, r);
        PrintFirst(Renumber(items), slots, next', r');
        NoStarReads(d, n, next);
        NoStarReads(Renumbered(d), |slots|, next');
        OnlySameEvent(d, a, b, slots, n);
        PrintsLined(items[1..], slots, n, a.next, b.next, r || UsesIndex(d), r' || UsesIndex(Renumbered(d)));
      }
    }
  }

  lemma ManyShown(n: nat)
    ensures |ShownAll(Iota(n))| == n
  {
  }

  lemma NoStarReads(d: Directive, n: nat, next: nat)
    requires DirectiveOk(d)
    ensures !d.width.Star? ==> ReadsOf(d, n, next).width.None?
    ensures !(d.prec.Some? && d.prec.value.Star?) ==> ReadsOf(d, n, next).prec.None?
  {
    hide IndexOk;
  }

  // ---- Exactly when -------------------------------------------------------------------------------

  predicate HasTypeVerb(items: seq<Item>) {
    items != [] && ((items[0].Dir? && (items[0].d.verb == 'T' || items[0].d.verb == 'p')) || HasTypeVerb(items[1..]))
  }

  lemma {:induction false} PrerenderChanges<V>(items: seq<Item>, ops: seq<V>, next: nat, r: bool)
    requires ItemsOk(items) && AllWhole(Print(items, ShownAll(ops), next, r))
    ensures PrerenderAll(Print(items, ShownAll(ops), next, r)) == Print(items, ShownAll(ops), next, r) <==>
      !HasTypeVerb(items)
    decreases |items|
  {
    hide DirectiveOk, Print1, UsesIndex, Whole, Prerender, ShownAll;
    var all := ShownAll(ops);
    var es := Print(items, all, next, r);
    if items == [] {
      NothingChanges(ops, next, r);
    } else {
      PrerenderFirst(es);
      assert PrerenderAll(es) == es <==> PrerenderAll(es)[0] == es[0] && PrerenderAll(es)[1..] == es[1..]
        by { HeadAndTail(PrerenderAll(es), es); }
      if items[0].Lit? {
        PlainSame<V>(items[0].s);
        PrerenderChanges(items[1..], ops, next, r);
      } else {
        var d := items[0].d;
        PrintFirst(items, all, next, r);
        WholeCons(Print1(d, all, next).0, Print(items[1..], all, Print1(d, all, next).1, r || UsesIndex(d)));
        EventChanges(d, ops, next);
        PrerenderChanges(items[1..], ops, Print1(d, all, next).1, r || UsesIndex(d));
      }
    }
  }

  lemma HeadAndTail<T>(a: seq<T>, b: seq<T>)
    requires a != [] && b != []
    ensures a == b <==> a[0] == b[0] && a[1..] == b[1..]
  {
    assert a == [a[0]] + a[1..] && b == [b[0]] + b[1..];
  }

  lemma NothingChanges<V>(ops: seq<V>, next: nat, r: bool)
    ensures PrerenderAll(Print([], ShownAll(ops), next, r)) == Print([], ShownAll(ops), next, r)
  {
    var es := Print([], ShownAll(ops), next, r);
    assert es != [] ==> es[1..] == [];
  }

  lemma EventChanges<V>(d: Directive, ops: seq<V>, next: nat)
    requires DirectiveOk(d) && Whole(Print1(d, ShownAll(ops), next).0)
    ensures Prerender(Print1(d, ShownAll(ops), next).0) == Print1(d, ShownAll(ops), next).0 <==>
      !(d.verb == 'T' || d.verb == 'p')
  {
    hide IndexOk, SizeAmount, Move;
  }

  /** The condition. Nothing is rewritten when the scan finds a mix or misses an operand; then
      %T and %p must not wait to be pre-rendered. Otherwise nothing may be sliced off that is
      not there; a format that finds all its operands must be in line; one that does not must
      come out as it was. */
  predicate Keeps(items: seq<Item>, n: nat)
    requires ItemsOk(items)
  {
    if !AllUsable(Found0(items).0, n) then !Unmixed(items) || !WholeFrom(items, 0, n) || !HasTypeVerb(items)
    else
      Rebuilds(items, n) &&
      if WholeFrom(items, 0, n) then Lined(items, Slots(items, n), 0, 0, false, false, n)
      else Renumber(items) == items && Slots(items, n) == ShownAll(Iota(n))
  }

  lemma FillShown<V>(vals: seq<V>)
    ensures AllWithin(ShownAll(Iota(|vals|)), |vals|) && FillAll(ShownAll(Iota(|vals|)), vals) == ShownAll(vals)
  {
  }

  lemma FillNumbers(slots: seq<Arg<nat>>, n: nat)
    requires AllWithin(slots, n)
    ensures FillAll(slots, Iota(n)) == slots
  {
  }

  lemma WholeShown<V>(items: seq<Item>, vals: seq<V>)
    requires ItemsOk(items)
    ensures AllWhole(Shown0(items, vals)) <==> WholeFrom(items, 0, |vals|)
  {
    WholeIs(items, ShownAll(vals), 0, false);
  }

  lemma HostPrints<V>(items: seq<Item>, ops: seq<Arg<V>>)
    requires ItemsOk(items)
    ensures HostPrint(Render(items), ops) == Some(Print(items, ops, 0, false))
  {
    hide Print, Render, HostParse, ItemsOk;
    ParseRender(items);
  }

  lemma KeepsFaithful<V>(items: seq<Item>, vals: seq<V>)
    requires ItemsOk(items) && Keeps(items, |vals|)
    ensures Faithful(items, vals)
  {
    hide FoundIn, AllUsable, Render, Rewrite, Print, PrerenderAll, Renumber, AllWhole, ItemsOk, HostPrint, Lined;
    hide Slots, WholeFrom, Unmixed, Rebuilds, HasTypeVerb, FillAll;
    var n := |vals|;
    RewriteIs(items, vals);
    WholeShown(items, vals);
    if !AllUsable(Found0(items).0, n) {
      HostPrints(items, ShownAll(vals));
      if AllWhole(Shown0(items, vals)) { PrerenderChanges(items, vals, 0, false); }
    } else if WholeFrom(items, 0, n) {
      LinedPrints(items, Slots(items, n), vals, 0, 0, false, false);
      HostPrints(Renumber(items), FillAll(Slots(items, n), vals));
    } else {
      FillShown(vals);
    }
  }

  lemma FaithfulKeeps(items: seq<Item>, n: nat)
    requires ItemsOk(items) && Faithful(items, Iota(n))
    ensures Keeps(items, n)
  {
    hide FoundIn, AllUsable, Render, Rewrite, Print, PrerenderAll, Renumber, AllWhole, ItemsOk, HostPrint, Lined;
    hide Slots, WholeFrom, Unmixed, Rebuilds, HasTypeVerb, FillAll;
    var vals := Iota(n);
    RewriteIs(items, vals);
    WholeShown(items, vals);
    if !AllUsable(Found0(items).0, n) {
      HostPrints(items, ShownAll(vals));
      if AllWhole(Shown0(items, vals)) { PrerenderChanges(items, vals, 0, false); }
    } else {
      var slots := Slots(items, n);
      FillNumbers(slots, n);
      RenumberOk(items);
      if WholeFrom(items, 0, n) {
        HostPrints(Renumber(items), slots);
        PrintsLined(items, slots, n, 0, 0, false, false);
      } else {
        ParseRender(items);
        ParseRender(Renumber(items));
      }
    }
  }

  /** For every well-formed format: the rewriting keeps what is printed over every list of `n`
      operands exactly when the condition holds. */
  lemma KeepsIff(items: seq<Item>, n: nat)
    requires ItemsOk(items)
    ensures (forall vals: seq<nat> :: |vals| == n ==> Faithful(items, vals)) <==> Keeps(items, n)
  {
    hide Faithful, Keeps;
    if Keeps(items, n) {
      forall vals: seq<nat> | |vals| == n ensures Faithful(items, vals) { KeepsFaithful(items, vals); }
    }
    if forall vals: seq<nat> :: |vals| == n ==> Faithful(items, vals) {
      assert Faithful(items, Iota(n));
      FaithfulKeeps(items, n);
    }
  }
}
