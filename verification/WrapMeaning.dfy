/** The positions rewriteWrapVerbs records against the operands fmt wraps, directive by directive:
    exactly when they agree, and what that means for Errorf. */
module WrapMeaning {
  import opened Basics
  import opened Format
  import opened Printf
  import opened TypeVerbs
  import opened TypeVerbsLaw
  import opened TypeVerbsMeaning
  import opened TypeVerbsExact
  import opened WrapVerbs

  // ---- What is wrapped and what is recorded ------------------------------------------------------

  /** What a %w directive wraps: nothing when its index is bad or its operand missing. */
  function OfWrap<V>(e: Event<V>): seq<Option<Arg<V>>> {
    match e
    case Verb(_, _, _, verb, op) => if verb == 'w' then [Some(op)] else []
    case BadIndex(_, _, verb) => if verb == 'w' then [None] else []
    case Missing(_, _, verb) => if verb == 'w' then [None] else []
    case _ => []
  }

  /** The same for every %w, in order. */
  function WrapsEach<V>(es: seq<Event<V>>): seq<Option<Arg<V>>> {
    if es == [] then [] else OfWrap(es[0]) + WrapsEach(es[1..])
  }

  /** The operands at the recorded positions; the caller drops those past the operands. */
  function RecordsEach<V>(ps: seq<int>, vals: seq<V>): seq<Option<Arg<V>>> {
    if ps == [] then []
    else [if 0 <= ps[0] < |vals| then Some(Shown(vals[ps[0]])) else None] + RecordsEach(ps[1..], vals)
  }

  // ---- Two cursors ---------------------------------------------------------------------------------

  /** fmt's cursor, how far the scanner's is ahead of it, and whether every index of the directive
      so far names an operand. */
  datatype Pair = Pair(next: nat, lead: int, good: bool)

  /** An index past the operands leaves fmt where it is and takes the scanner along. */
  function AtIndex(s: Pair, idx: Option<string>, n: nat): Pair
    requires IndexOk(idx)
  {
    if idx.None? then s
    else if Number(idx.value) <= n then Pair(Number(idx.value) - 1, 0, s.good)
    else Pair(s.next, Number(idx.value) - 1 - s.next, false)
  }

  /** A star past the operands leaves fmt where it is, too. */
  function AtSize(s: Pair, size: Size, n: nat): Pair
    requires SizeOk(size)
  {
    if !size.Star? then s
    else
      var t := AtIndex(s, size.idx, n);
      if t.next < n then t.(next := t.next + 1) else t.(lead := t.lead + 1)
  }

  function AtPrec(s: Pair, p: Option<Size>, n: nat): Pair
    requires p.Some? ==> SizeOk(p.value)
  {
    if p.Some? then AtSize(s, p.value, n) else s
  }

  function PairAt(d: Directive, next: nat, lead: int, n: nat): Pair
    requires DirectiveOk(d)
  {
    AtIndex(AtPrec(AtSize(Pair(next, lead, true), d.width, n), d.prec, n), d.idx, n)
  }

  /** Behind the verb: fmt stays at a bad index and past the operands. */
  function PairAfter(d: Directive, s: Pair, n: nat): Pair {
    if d.verb == '%' then s
    else if s.good && s.next < n then s.(next := s.next + 1)
    else s.(lead := s.lead + 1)
  }

  /** At a %w: with every index in range the scanner must be in step or fmt past the operands; with
      an index out of range the scanner must be past them. */
  predicate Agree(s: Pair, n: nat) {
    if s.good then s.lead == 0 || s.next >= n else s.next + s.lead >= n
  }

  predicate InStep(items: seq<Item>, next: nat, lead: int, n: nat)
    requires ItemsOk(items)
    decreases |items|
  {
    items != [] ==>
      match items[0]
      case Lit(_) => InStep(items[1..], next, lead, n)
      case Dir(d) =>
        var s := PairAt(d, next, lead, n);
        var t := PairAfter(d, s, n);
        (d.verb == 'w' ==> Agree(s, n)) && InStep(items[1..], t.next, t.lead, n)
  }

  // ---- By position -----------------------------------------------------------------------------------

  function HostAt(s: Pair, n: nat): Option<nat> {
    if s.good && s.next < n then Some(s.next) else None
  }

  function ScanAt(s: Pair, n: nat): Option<nat> {
    if 0 <= s.next + s.lead < n then Some(s.next + s.lead) else None
  }

  function Picked<V>(o: Option<nat>, vals: seq<V>): Option<Arg<V>> {
    if o.Some? && o.value < |vals| then Some(Shown(vals[o.value])) else None
  }

  predicate Sane(s: Pair, n: nat) { s.next <= n && s.lead >= 0 }

  lemma AgreeIff(s: Pair, n: nat)
    requires Sane(s, n)
    ensures Agree(s, n) <==> HostAt(s, n) == ScanAt(s, n)
  {
  }

  lemma IndexPair(s: Pair, idx: Option<string>, n: nat)
    requires IndexOk(idx) && Sane(s, n)
    ensures var t, c := AtIndex(s, idx, n), Move(Cursor(s.next, s.good), idx, n);
      Sane(t, n) && c == Cursor(t.next, t.good) && Moved(idx, s.next + s.lead) == t.next + t.lead
  {
  }

  lemma SizePair<V>(s: Pair, size: Size, ops: seq<Arg<V>>)
    requires SizeOk(size) && Sane(s, |ops|)
    ensures var t := AtSize(s, size, |ops|);
      && Sane(t, |ops|) && SizeAmount(size, ops, Cursor(s.next, s.good)).1 == Cursor(t.next, t.good)
      && SizeMoved(size, s.next + s.lead) == t.next + t.lead
  {
    hide Move, Moved, IndexOk, AtIndex;
    if size.Star? { IndexPair(s, size.idx, |ops|); }
  }

  /** fmt and the scanner, across one directive. */
  lemma PairRuns<V>(d: Directive, ops: seq<Arg<V>>, next: nat, lead: int)
    requires DirectiveOk(d) && Sane(Pair(next, lead, true), |ops|)
    ensures var n := |ops|;
      var s := PairAt(d, next, lead, n);
      var (e, m) := Print1(d, ops, next);
      && Sane(s, n) && Sane(PairAfter(d, s, n), n)
      && m == PairAfter(d, s, n).next && AfterVerb(d, next + lead) == m + PairAfter(d, s, n).lead
      && AtVerb(d, next + lead) == s.next + s.lead
      && OfWrap(e) == if d.verb == 'w' then [if HostAt(s, n).Some? then Some(ops[s.next]) else None] else []
  {
    hide Move, Moved, IndexOk, AtIndex, SizeAmount, AtSize, SizeMoved;
    var n := |ops|;
    var s0 := Pair(next, lead, true);
    SizePair(s0, d.width, ops);
    var s1 := AtSize(s0, d.width, n);
    if d.prec.Some? { SizePair(s1, d.prec.value, ops); }
    IndexPair(AtPrec(s1, d.prec, n), d.idx, n);
  }

  lemma WrapsCons<V>(e: Event<V>, es: seq<Event<V>>)
    ensures WrapsEach([e] + es) == OfWrap(e) + WrapsEach(es)
  {
    assert ([e] + es)[1..] == es;
  }

  lemma RecordsCons<V>(p: int, ps: seq<int>, vals: seq<V>)
    ensures RecordsEach([p] + ps, vals)
      == [if 0 <= p < |vals| then Some(Shown(vals[p])) else None] + RecordsEach(ps, vals)
  {
    assert ([p] + ps)[1..] == ps;
  }

  lemma NoWraps<V>(ops: seq<Arg<V>>, vals: seq<V>, next: nat, a: int, r: bool)
    ensures WrapsEach(Print([], ops, next, r)) == [] == RecordsEach(Positions([], a), vals)
  {
    var es := Print([], ops, next, r);
    assert es != [] ==> es[1..] == [] && es[0].Extra?;
  }

  ghost predicate SameWraps<V>(items: seq<Item>, vals: seq<V>, next: nat, lead: int, r: bool)
    requires ItemsOk(items)
  {
    WrapsEach(Print(items, ShownAll(vals), next, r)) == RecordsEach(Positions(items, next + lead), vals)
  }

  lemma NoItemsWrap<V>(vals: seq<V>, next: nat, lead: int, r: bool)
    ensures SameWraps([], vals, next, lead, r)
  {
    NoWraps(ShownAll(vals), vals, next, next + lead, r);
  }

  /** One directive: both lists start with what it wraps and what is recorded for it. */
  lemma WrapsFirst<V>(items: seq<Item>, vals: seq<V>, next: nat, lead: int, r: bool)
    requires ItemsOk(items) && items != [] && items[0].Dir? && Sane(Pair(next, lead, true), |vals|)
    ensures DirectiveOk(items[0].d) && ItemsOk(items[1..])
    ensures var d, n := items[0].d, |vals|;
      var s := PairAt(d, next, lead, n);
      var t := PairAfter(d, s, n);
      && Sane(s, n) && Sane(t, n)
      && (SameWraps(items, vals, next, lead, r) <==>
            (d.verb == 'w' ==> Picked(HostAt(s, n), vals) == Picked(ScanAt(s, n), vals))
            && SameWraps(items[1..], vals, t.next, t.lead, r || UsesIndex(d)))
  {
    hide DirectiveOk, AtVerb, AfterVerb, Positions, ItemsOk, Print1, UsesIndex, PairAt, PairAfter, OfWrap, WrapsEach;
    hide RecordsEach, Print;
    var d, n, ops := items[0].d, |vals|, ShownAll(vals);
    PositionsFirst(items, next + lead);
    PairRuns(d, ops, next, lead);
    var s := PairAt(d, next, lead, n);
    var t := PairAfter(d, s, n);
    var (e, m) := Print1(d, ops, next);
    PrintFirst(items, ops, next, r);
    WrapsCons(e, Print(items[1..], ops, m, r || UsesIndex(d)));
    var ps := Positions(items[1..], AfterVerb(d, next + lead));
    if d.verb == 'w' {
      RecordsCons(AtVerb(d, next + lead), ps, vals);
      ScanPicks(s, vals);
      HostPicks(s, vals);
      HeadsAndTails(Picked(HostAt(s, n), vals), WrapsEach(Print(items[1..], ops, m, r || UsesIndex(d))),
        Picked(ScanAt(s, n), vals), RecordsEach(ps, vals));
    } else {
      NothingBefore(ps);
      NothingBefore(WrapsEach(Print(items[1..], ops, m, r || UsesIndex(d))));
    }
  }

  lemma NothingBefore<T>(xs: seq<T>)
    ensures [] + xs == xs
  {
  }

  lemma ScanPicks<V>(s: Pair, vals: seq<V>)
    ensures Picked(ScanAt(s, |vals|), vals)
      == var p := s.next + s.lead; if 0 <= p < |vals| then Some(Shown(vals[p])) else None
  {
  }

  lemma HostPicks<V>(s: Pair, vals: seq<V>)
    ensures Picked(HostAt(s, |vals|), vals) == if HostAt(s, |vals|).Some? then Some(ShownAll(vals)[s.next]) else None
  {
  }

  lemma HeadsAndTails<T>(x: T, xs: seq<T>, y: T, ys: seq<T>)
    ensures [x] + xs == [y] + ys <==> x == y && xs == ys
  {
    assert ([x] + xs)[0] == x && ([x] + xs)[1..] == xs && ([y] + ys)[0] == y && ([y] + ys)[1..] == ys;
  }

  lemma WrapsLit<V>(items: seq<Item>, vals: seq<V>, next: nat, lead: int, r: bool)
    requires ItemsOk(items) && items != [] && items[0].Lit?
    ensures ItemsOk(items[1..])
    ensures (SameWraps(items, vals, next, lead, r) <==> SameWraps(items[1..], vals, next, lead, r))
  {
    hide Positions, WrapsEach;
    PositionsFirst(items, next + lead);
    WrapsCons(Plain(items[0].s), Print(items[1..], ShownAll(vals), next, r));
    assert [] + WrapsEach(Print(items[1..], ShownAll(vals), next, r))
      == WrapsEach(Print(items[1..], ShownAll(vals), next, r));
  }

  /** In step, every recorded position names the operand fmt wraps there, or neither does. */
  lemma {:induction false} InStepAgrees<V>(items: seq<Item>, vals: seq<V>, next: nat, lead: int, r: bool)
    requires ItemsOk(items) && InStep(items, next, lead, |vals|) && Sane(Pair(next, lead, true), |vals|)
    ensures SameWraps(items, vals, next, lead, r)
    decreases |items|
  {
    hide DirectiveOk, PairAt, PairAfter, UsesIndex, SameWraps, Agree, HostAt, ScanAt;
    if items == [] {
      NoItemsWrap(vals, next, lead, r);
    } else if items[0].Lit? {
      WrapsLit(items, vals, next, lead, r);
      InStepAgrees(items[1..], vals, next, lead, r);
    } else {
      var d := items[0].d;
      WrapsFirst(items, vals, next, lead, r);
      var s := PairAt(d, next, lead, |vals|);
      var t := PairAfter(d, s, |vals|);
      if d.verb == 'w' { AgreeIff(s, |vals|); }
      InStepAgrees(items[1..], vals, t.next, t.lead, r || UsesIndex(d));
    }
  }

  /** Numbered operands tell the positions apart. */
  lemma PickedApart(a: Option<nat>, b: Option<nat>, n: nat)
    requires (a.Some? ==> a.value < n) && (b.Some? ==> b.value < n)
    ensures Picked(a, Iota(n)) == Picked(b, Iota(n)) <==> a == b
  {
  }

  lemma {:induction false} AgreesInStep(items: seq<Item>, n: nat, next: nat, lead: int, r: bool)
    requires ItemsOk(items) && SameWraps(items, Iota(n), next, lead, r) && Sane(Pair(next, lead, true), n)
    ensures InStep(items, next, lead, n)
    decreases |items|
  {
    hide DirectiveOk, PairAt, PairAfter, UsesIndex, SameWraps, Agree;
    if items != [] {
      if items[0].Lit? {
        WrapsLit(items, Iota(n), next, lead, r);
        AgreesInStep(items[1..], n, next, lead, r);
      } else {
        var d := items[0].d;
        WrapsFirst(items, Iota(n), next, lead, r);
        var s := PairAt(d, next, lead, n);
        var t := PairAfter(d, s, n);
        if d.verb == 'w' {
          AgreeIff(s, n);
          PickedApart(HostAt(s, n), ScanAt(s, n), n);
        }
        AgreesInStep(items[1..], n, t.next, t.lead, r || UsesIndex(d));
      }
    }
  }

  /** The recorded positions name what fmt wraps, directive by directive and over every list of `n`
      operands, exactly when the two cursors are in step at every %w. */
  lemma PositionsAgreeIff(items: seq<Item>, n: nat)
    requires ItemsOk(items)
    ensures (forall vals: seq<nat> :: |vals| == n ==> SameWraps(items, vals, 0, 0, false)) <==> InStep(items, 0, 0, n)
  {
    hide SameWraps, InStep;
    if InStep(items, 0, 0, n) {
      forall vals: seq<nat> | |vals| == n ensures SameWraps(items, vals, 0, 0, false) {
        InStepAgrees(items, vals, 0, 0, false);
      }
    }
    if forall vals: seq<nat> :: |vals| == n ==> SameWraps(items, vals, 0, 0, false) {
      assert SameWraps(items, Iota(n), 0, 0, false);
      AgreesInStep(items, n, 0, 0, false);
    }
  }

  /** %v where the format says %w. */
  function AsV<V>(e: Event<V>): Event<V> {
    match e
    case Verb(flags, w, p, verb, op) => if verb == 'w' then Verb(flags, w, p, 'v', op) else e
    case BadIndex(w, p, verb) => if verb == 'w' then BadIndex(w, p, 'v') else e
    case Missing(w, p, verb) => if verb == 'w' then Missing(w, p, 'v') else e
    case _ => e
  }

  function AllAsV<V>(es: seq<Event<V>>): seq<Event<V>> {
    if es == [] then [] else [AsV(es[0])] + AllAsV(es[1..])
  }

  lemma AsVCons<V>(e: Event<V>, es: seq<Event<V>>)
    ensures AllAsV([e] + es) == [AsV(e)] + AllAsV(es)
  {
    assert ([e] + es)[1..] == es;
  }

  lemma UnwrappedPrints<V>(d: Directive, ops: seq<Arg<V>>, next: nat)
    requires DirectiveOk(d)
    ensures DirectiveOk(Unwrapped(d)) && UsesIndex(Unwrapped(d)) == UsesIndex(d)
    ensures Print1(Unwrapped(d), ops, next) == var (e, n) := Print1(d, ops, next); (AsV(e), n)
  {
    hide SizeAmount, Move, IndexOk;
  }

  lemma {:induction false} UnwrapOk(items: seq<Item>)
    requires ItemsOk(items)
    ensures ItemsOk(UnwrapAll(items))
    decreases |items|
  {
    if items != [] {
      UnwrapOk(items[1..]);
      var r := UnwrapAll(items);
      assert r[1..] == UnwrapAll(items[1..]);
      if |items| > 1 { assert r[1] == UnwrapItem(items[1..][0]) == UnwrapItem(items[1]); }
    }
  }

  lemma {:induction false} UnwrapPrints<V>(items: seq<Item>, ops: seq<Arg<V>>, next: nat, r: bool)
    requires ItemsOk(items)
    ensures ItemsOk(UnwrapAll(items))
    ensures Print(UnwrapAll(items), ops, next, r) == AllAsV(Print(items, ops, next, r))
    decreases |items|
  {
    hide DirectiveOk, Print1, UsesIndex, Unwrapped;
    UnwrapOk(items);
    if items == [] {
      var es := Print(items, ops, next, r);
      assert es != [] ==> es[1..] == [] && es[0].Extra? && AllAsV(es[1..]) == [];
    } else {
      assert UnwrapAll(items)[1..] == UnwrapAll(items[1..]);
      if items[0].Lit? {
        AsVCons(Plain(items[0].s), Print(items[1..], ops, next, r));
        UnwrapPrints(items[1..], ops, next, r);
      } else {
        var d := items[0].d;
        var (e, n) := Print1(d, ops, next);
        UnwrappedPrints(d, ops, next);
        PrintFirst(items, ops, next, r);
        PrintFirst(UnwrapAll(items), ops, next, r);
        AsVCons(e, Print(items[1..], ops, n, r || UsesIndex(d)));
        UnwrapPrints(items[1..], ops, n, r || UsesIndex(d));
      }
    }
  }

  // ---- Errorf ------------------------------------------------------------------------------------------

  lemma PrerenderWrap<V>(e: Event<V>)
    ensures OfWrap(Prerender(e)) == OfWrap(e)
  {
  }

  /** Pre-rendering does not touch what %w wraps. */
  lemma {:induction false} PrerenderWraps<V>(es: seq<Event<V>>)
    ensures WrapsEach(PrerenderAll(es)) == WrapsEach(es)
  {
    if es != [] {
      PrerenderWraps(es[1..]);
      PrerenderFirst(es);
      PrerenderWrap(es[0]);
    }
  }

  /** What Errorf prints and what it wraps: the positions come from the format as written, the
      printing from the format and operands rewriteTypeVerbs returns, with %v for %w. */
  ghost predicate ErrorfAgrees<V>(items: seq<Item>, vals: seq<V>)
    requires ItemsOk(items)
  {
    var spec := Render(items);
    var out := Rewrite(spec, vals);
    && out.Done?
    && var shown := HostPrint(out.spec, out.ops);
    && shown.Some?
    && HostPrint(Wrap(out.spec).0, out.ops) == Some(AllAsV(shown.value))
    && WrapsEach(shown.value) == RecordsEach(Wrap(spec).1, vals)
  }

  lemma PrintedAsV<V>(items: seq<Item>, ops: seq<Arg<V>>)
    requires ItemsOk(items)
    ensures HostPrint(Render(items), ops) == Some(Print(items, ops, 0, false))
    ensures HostPrint(Wrap(Render(items)).0, ops) == Some(AllAsV(Print(items, ops, 0, false)))
  {
    hide Render, Print, Wrap, HostParse, ItemsOk;
    WrapOf(items);
    UnwrapPrints(items, ops, 0, false);
    ParseRender(items);
    ParseRender(UnwrapAll(items));
  }

  /** Where the rewriting is faithful, Errorf wraps what it prints just when the recorded positions
      name what fmt wraps. */
  lemma ErrorfIs<V>(items: seq<Item>, vals: seq<V>)
    requires ItemsOk(items) && Faithful(items, vals)
    ensures ErrorfAgrees(items, vals) <==> SameWraps(items, vals, 0, 0, false)
  {
    hide Render, Print, Wrap, HostParse, ItemsOk, Rewrite, HostPrint, WrapsEach, RecordsEach, PrerenderAll, AllWhole;
    hide FillAll, FoundIn, Slots, Renumber, Unmixed, Positions, AllUsable;
    var out := Rewrite(Render(items), vals);
    var shown := Shown0(items, vals);
    WrapOf(items);
    RewriteIs(items, vals);
    PrerenderWraps(shown);
    RenumberOk(items);
    if AllUsable(Found0(items).0, |vals|) {
      PrintedAsV(Renumber(items), out.ops);
    } else {
      PrintedAsV(items, out.ops);
    }
    if !(Unmixed(items) && AllWhole(shown)) { PrintedAsV(items, out.ops); }
    assert WrapsEach(HostPrint(out.spec, out.ops).value) == WrapsEach(shown);
  }

  /** Over all operand lists of one length on which the rewriting is faithful, Errorf wraps exactly
      the operands its %w directives print if and only if the cursors are in step. */
  lemma ErrorfWrapsIff(items: seq<Item>, n: nat)
    requires ItemsOk(items) && Keeps(items, n)
    ensures (forall vals: seq<nat> :: |vals| == n ==> ErrorfAgrees(items, vals)) <==> InStep(items, 0, 0, n)
  {
    hide Keeps, ErrorfAgrees, SameWraps, InStep, Faithful;
    PositionsAgreeIff(items, n);
    forall vals: seq<nat> | |vals| == n ensures ErrorfAgrees(items, vals) <==> SameWraps(items, vals, 0, 0, false) {
      KeepsFaithful(items, vals);
      ErrorfIs(items, vals);
    }
  }

  /** For operands of any kind. */
  lemma ErrorfWraps<V>(items: seq<Item>, vals: seq<V>)
    requires ItemsOk(items) && Faithful(items, vals) && InStep(items, 0, 0, |vals|)
    ensures ErrorfAgrees(items, vals)
  {
    hide ErrorfAgrees, SameWraps, InStep, Faithful;
    InStepAgrees(items, vals, 0, 0, false);
    ErrorfIs(items, vals);
  }

  /** The pair follows fmt's cursor as long as no index is bad and no operand missing. */
  predicate Follows(s: Pair, c: Cursor, n: nat) {
    s == Pair(c.next, 0, true) && c.good && c.next <= n
  }

  lemma MoveFollows(s: Pair, c: Cursor, idx: Option<string>, n: nat)
    requires IndexOk(idx)
    ensures Follows(s, c, n) && Move(c, idx, n).good ==> Follows(AtIndex(s, idx, n), Move(c, idx, n), n)
    ensures !c.good ==> !Move(c, idx, n).good
    ensures idx.None? ==> Move(c, idx, n) == c
  {
  }

  lemma SizeFollows<V>(s: Pair, c: Cursor, size: Size, ops: seq<Arg<V>>)
    requires SizeOk(size)
    ensures var (w, d) := SizeAmount(size, ops, c);
      && (Follows(s, c, |ops|) && Given(w) && d.good ==> Follows(AtSize(s, size, |ops|), d, |ops|))
      && (!c.good ==> !d.good) && (!size.Star? || size.idx.None? ==> d.good == c.good)
  {
    hide IndexOk, Move, AtIndex;
    if size.Star? { MoveFollows(s, c, size.idx, |ops|); }
  }

  lemma PrecFollows<V>(s: Pair, c: Cursor, p: Option<Size>, ops: seq<Arg<V>>)
    requires p.Some? ==> SizeOk(p.value)
    ensures var (w, d) := OptAmount(p, ops, c);
      && (Follows(s, c, |ops|) && Given(w) && d.good ==> Follows(AtPrec(s, p, |ops|), d, |ops|))
      && (!c.good ==> !d.good) && (p.None? || !p.value.Star? || p.value.idx.None? ==> d.good == c.good)
  {
    hide SizeAmount, AtSize, SizeOk, Follows;
    if p.Some? { SizeFollows(s, c, p.value, ops); }
  }

  lemma WholePair<V>(d: Directive, ops: seq<Arg<V>>, next: nat)
    requires DirectiveOk(d) && (d.verb == '%' ==> !UsesIndex(d)) && Whole(Print1(d, ops, next).0) && next <= |ops|
    ensures var s := PairAt(d, next, 0, |ops|);
      s.good && s.lead == 0 && (d.verb != '%' ==> s.next < |ops|) && s.next <= |ops|
  {
    hide IndexOk, SizeAmount, OptAmount, Move, AtSize, AtPrec, AtIndex;
    var c, s := Cursor(next, true), Pair(next, 0, true);
    SizeFollows(s, c, d.width, ops);
    var c1, s1 := SizeAmount(d.width, ops, c).1, AtSize(s, d.width, |ops|);
    PrecFollows(s1, c1, d.prec, ops);
    var c2, s2 := OptAmount(d.prec, ops, c1).1, AtPrec(s1, d.prec, |ops|);
    MoveFollows(s2, c2, d.idx, |ops|);
  }

  /** A format that finds all its operands is in step. */
  lemma {:induction false} WholeInStep<V>(items: seq<Item>, ops: seq<Arg<V>>, next: nat, r: bool)
    requires ItemsOk(items) && NoPercentIndex(items) && next <= |ops| && AllWhole(Print(items, ops, next, r))
    ensures InStep(items, next, 0, |ops|)
    decreases |items|
  {
    hide DirectiveOk, Print1, UsesIndex, Whole, PairAt;
    if items != [] {
      if items[0].Lit? {
        WholeCons(Plain(items[0].s), Print(items[1..], ops, next, r));
        WholeInStep(items[1..], ops, next, r);
      } else {
        var d := items[0].d;
        var (e, m) := Print1(d, ops, next);
        PrintFirst(items, ops, next, r);
        WholeCons(e, Print(items[1..], ops, m, r || UsesIndex(d)));
        WholePair(d, ops, next);
        PairRuns(d, ops, next, 0);
        WholeInStep(items[1..], ops, m, r || UsesIndex(d));
      }
    }
  }

  /** Whenever a format without starred or indexed %% is rewritten at all, Errorf wraps exactly what
      it prints. */
  lemma RewrittenWraps<V>(items: seq<Item>, vals: seq<V>)
    requires ItemsOk(items) && NoPercentIndex(items) && NoPercentStar(items)
    requires AllUsable(ScanAll(Render(items), 0, START).0, |vals|)
    ensures ErrorfAgrees(items, vals)
  {
    hide Render, Print, ItemsOk, AllWhole, ErrorfAgrees, AllUsable, FoundIn, ScanAll, PrintsWhole, Within, InStep;
    hide Faithful;
    ScanOf(items);
    UsableIsClean(items, 0, FoundIn(items, 0, START).0, |vals|);
    CleanIsUnmixed(items);
    StartsWithin(|vals|);
    UsableFits(items, 0, START, vals);
    FitsIffWhole(items, 0, START, vals);
    assert AllWhole(Shown0(items, vals)) by { WholeAtStart(items, vals); }
    WholeInStep(items, ShownAll(vals), 0, false);
    RewritePreserves(items, vals);
    ErrorfWraps(items, vals);
  }

  lemma StartsWithin(n: nat)
    ensures Within(START, n)
  {
  }

  lemma WholeAtStart<V>(items: seq<Item>, vals: seq<V>)
    requires ItemsOk(items) && PrintsWhole(items, START, vals)
    ensures AllWhole(Shown0(items, vals))
  {
  }

  // ---- Indexes past the operands ---------------------------------------------------------------------------

  const NINTH := Directive("", NoSize, None, Some("9"), 'w')
  const FIRST := Directive("", NoSize, None, Some("1"), 'w')
  const NEXT := Directive("", NoSize, None, None, 'w')
  const NINTH_STAR := Directive("", Star(Some("9")), None, Some("1"), 'w')

  lemma SmallNumbers()
    ensures NumberOk("9") && Number("9") == 9 && NumberOk("1") && Number("1") == 1
    ensures DirectiveOk(NINTH) && DirectiveOk(FIRST) && DirectiveOk(NEXT) && DirectiveOk(NINTH_STAR)
  {
    var s, t := "9", "1";
    assert s[..|s| - 1] == "" && t[..|t| - 1] == "" && Number("") == 0;
  }

  lemma TwoItems(c: Directive, d: Directive)
    requires DirectiveOk(c) && DirectiveOk(d)
    ensures ItemsOk([Dir(c)]) && ItemsOk([Dir(c), Dir(d)])
    ensures [Dir(c)][1..] == [] && [Dir(c), Dir(d)][1..] == [Dir(d)] && [Dir(d)][1..] == []
  {
    hide DirectiveOk;
    assert [Dir(d)][1..] == [];
    OkDir([Dir(d)]);
    OkDir([Dir(c), Dir(d)]);
    assert [Dir(c)][1..] == [];
    OkDir([Dir(c)]);
  }

  /** Over one operand: `%[9]w` and `%[9]w%[1]w` agree, `%[9]w%w` and `%[9]*[1]w` do not. */
  lemma OutOfRangeIndexes()
    ensures ItemsOk([Dir(NINTH)]) && InStep([Dir(NINTH)], 0, 0, 1)
    ensures ItemsOk([Dir(NINTH), Dir(FIRST)]) && InStep([Dir(NINTH), Dir(FIRST)], 0, 0, 1)
    ensures ItemsOk([Dir(NINTH), Dir(NEXT)]) && !InStep([Dir(NINTH), Dir(NEXT)], 0, 0, 1)
    ensures ItemsOk([Dir(NINTH_STAR)]) && !InStep([Dir(NINTH_STAR)], 0, 0, 1)
  {
    hide ItemsOk, DirectiveOk, Number;
    SmallNumbers();
    TwoItems(NINTH, FIRST);
    TwoItems(NINTH, NEXT);
    TwoItems(NINTH_STAR, NEXT);
    assert ItemsOk([Dir(FIRST)]) && ItemsOk([Dir(NEXT)]) && ItemsOk([]) by {
      TwoItems(FIRST, NEXT);
      TwoItems(NEXT, FIRST);
      NoItems();
    }
    InStepOne([Dir(NINTH)], 0, 0, 1);
    InStepOne([Dir(NINTH), Dir(FIRST)], 0, 0, 1);
    InStepOne([Dir(NINTH), Dir(NEXT)], 0, 0, 1);
    InStepOne([Dir(FIRST)], 0, 9, 1);
    InStepOne([Dir(NEXT)], 0, 9, 1);
    InStepOne([Dir(NINTH_STAR)], 0, 0, 1);
    assert PairAt(NINTH, 0, 0, 1) == Pair(0, 8, false);
    assert PairAt(FIRST, 0, 9, 1) == Pair(0, 0, true);
    assert PairAt(NEXT, 0, 9, 1) == Pair(0, 9, true);
    assert PairAt(NINTH_STAR, 0, 0, 1) == Pair(0, 0, false);
  }

  lemma InStepOne(items: seq<Item>, next: nat, lead: int, n: nat)
    requires ItemsOk(items) && items != [] && items[0].Dir? && DirectiveOk(items[0].d) && ItemsOk(items[1..])
    ensures var d := items[0].d;
      var s := PairAt(d, next, lead, n);
      var t := PairAfter(d, s, n);
      InStep(items, next, lead, n) <==> (d.verb == 'w' ==> Agree(s, n)) && InStep(items[1..], t.next, t.lead, n)
  {
    hide PairAt, DirectiveOk;
  }

  lemma NoItems()
    ensures ItemsOk([])
  {
  }
}
