/** The directive rewriting preserves what a format prints, and exactly when. */
module TypeVerbsMeaning {
  import opened Basics
  import opened Format
  import opened Printf
  import opened TypeVerbs
  import opened TypeVerbsLaw

  // ---- What the rewriting is to preserve ------------------------------------------------------

  /** %T prints as %s over the text of the operand's type, %p over that of its address. */
  function Prerender<V>(e: Event<V>): Event<V> {
    if e.Verb? && e.op.Shown? && e.verb == 'T' then Verb(e.flags, e.width, e.prec, 's', TypeText(e.op.v))
    else if e.Verb? && e.op.Shown? && e.verb == 'p' then Verb(e.flags, e.width, e.prec, 's', AddrText(e.op.v))
    else e
  }

  function PrerenderAll<V>(es: seq<Event<V>>): seq<Event<V>> {
    if es == [] then [] else [Prerender(es[0])] + PrerenderAll(es[1..])
  }

  predicate Given<V>(a: Amount<V>) { a.FromOperand? ==> a.op.Some? }

  /** Every operand the directive asks for is there. */
  predicate Whole<V>(e: Event<V>) {
    match e
    case Percent(w, p) => Given(w) && Given(p)
    case Verb(_, w, p, _, _) => Given(w) && Given(p)
    case BadIndex(_, _, _) => false
    case Missing(_, _, _) => false
    case _ => true
  }

  predicate AllWhole<V>(es: seq<Event<V>>) {
    es != [] ==> Whole(es[0]) && AllWhole(es[1..])
  }

  /** No directive that prints an operand has both a star and an index. */
  predicate Unmixed(items: seq<Item>) {
    items != [] ==> (items[0].Dir? && items[0].d.verb != '%' ==> !Mixed(items[0].d)) && Unmixed(items[1..])
  }

  /** No %% carries an index, as in `%[2]%`. */
  predicate NoPercentIndex(items: seq<Item>) {
    items != [] ==> (items[0].Dir? && items[0].d.verb == '%' ==> !UsesIndex(items[0].d)) && NoPercentIndex(items[1..])
  }

  /** Nor a star, as in `%*%`. */
  predicate NoPercentStar(items: seq<Item>) {
    items != [] ==> (items[0].Dir? && items[0].d.verb == '%' ==> !HasStar(items[0].d)) && NoPercentStar(items[1..])
  }

  // ---- One directive ------------------------------------------------------------------------------

  /** The scanner's variables agree with the host's cursor. */
  predicate Tracks(v: Vars) {
    0 <= v.argNum && 0 <= v.maxArg && (v.reordered || v.argNum == v.maxArg)
  }

  /** How many operands the stars of an index-free directive read. */
  function Stars(d: Directive): nat {
    (if d.width.Star? then 1 else 0) + (if d.prec.Some? && d.prec.value.Star? then 1 else 0)
  }

  lemma OnPlainSizes(v: Vars, d: Directive)
    requires DirectiveOk(d) && !UsesIndex(d) && Tracks(v)
    ensures var st := OnDirective(Fresh(v), d);
      && st.pos == -1 && st.star == HasStar(d) && !st.indexed
      && st.stars == (if Stars(d) == 0 then [] else if Stars(d) == 1 then [v.argNum] else [v.argNum, v.argNum + 1])
      && st.v.argNum == v.argNum + Stars(d) && st.v.reordered == v.reordered
      && st.v.maxArg == (if Stars(d) > 0 && v.argNum + Stars(d) > v.maxArg then v.argNum + Stars(d) else v.maxArg)
  {
  }

  lemma OnUnstarred(v: Vars, d: Directive)
    requires DirectiveOk(d) && !HasStar(d)
    ensures OnDirective(Fresh(v), d) == OnIndex(Fresh(v), d.idx)
  {
  }

  /** What an index-free directive prints, in terms of where its operands stand. */
  lemma PrintPlain<V>(d: Directive, ops: seq<Arg<V>>, next: nat)
    requires DirectiveOk(d) && !UsesIndex(d) && d.verb != '%'
    ensures var (e, n) := Print1(d, ops, next);
      if next + Stars(d) < |ops| then
        Whole(e) && n == next + Stars(d) + 1 && e.Verb? && e.op == ops[next + Stars(d)] && e.flags == d.flags
          && e.verb == d.verb
        && e.width == PlainWidth(d, ops, next) && e.prec == PlainPrec(d, ops, next)
      else !Whole(e)
  {
  }

  function PlainWidth<V>(d: Directive, ops: seq<Arg<V>>, next: nat): Amount<V> {
    match d.width
    case NoSize => Absent
    case Fixed(ds) => Written(ds)
    case Star(_) => FromOperand(At(ops, next))
  }

  function PlainPrec<V>(d: Directive, ops: seq<Arg<V>>, next: nat): Amount<V> {
    match d.prec
    case None => Absent
    case Some(NoSize) => Absent
    case Some(Fixed(ds)) => Written(ds)
    case Some(Star(_)) => FromOperand(At(ops, if d.width.Star? then next + 1 else next))
  }

  lemma PrintPercent<V>(d: Directive, ops: seq<Arg<V>>, next: nat)
    requires DirectiveOk(d) && !UsesIndex(d) && d.verb == '%' && next <= |ops|
    ensures var (e, n) := Print1(d, ops, next);
      if next + Stars(d) <= |ops| then Whole(e) && n == next + Stars(d)
      else !Whole(e)
  {
  }

  lemma PrintIndexed<V>(d: Directive, ops: seq<Arg<V>>, next: nat)
    requires DirectiveOk(d) && !HasStar(d) && d.idx.Some? && d.verb != '%'
    ensures var (e, n) := Print1(d, ops, next);
      var k := Number(d.idx.value);
      if k <= |ops| then
        e == Verb(d.flags, PlainWidth(d, ops, next), PlainPrec(d, ops, next), d.verb, ops[k - 1]) && n == k
      else !Whole(e)
  {
  }

  /** What the scanner records for a directive that is not %%. */
  function Record(d: Directive, i: nat, v: Vars): Found
    requires DirectiveOk(d) && d.verb != '%'
  {
    Step(d, i, v).0[0]
  }

  lemma RecordPlain(d: Directive, i: nat, v: Vars)
    requires DirectiveOk(d) && d.verb != '%' && !UsesIndex(d) && Tracks(v)
    ensures var f, a := Record(d, i, v), v.argNum + Stars(d);
      && f.pos == a && !f.starIdx && f.verb == d.verb
      && f.stars == (if Stars(d) == 0 then [] else if Stars(d) == 1 then [v.argNum] else [v.argNum, v.argNum + 1])
      && Step(d, i, v).1 == Vars(a + 1, if a + 1 > v.maxArg then a + 1 else v.maxArg, v.reordered)
  {
    hide OnDirective;
    OnPlainSizes(v, d);
  }

  lemma RecordIndexed(d: Directive, i: nat, v: Vars)
    requires DirectiveOk(d) && d.verb != '%' && !HasStar(d) && d.idx.Some? && Tracks(v)
    ensures var f, k := Record(d, i, v), Number(d.idx.value);
      && f.pos == k - 1 && !f.starIdx && f.verb == d.verb && f.stars == []
      && Step(d, i, v).1 == Vars(k, if k > v.maxArg then k else v.maxArg, true)
  {
    hide OnDirective;
    OnUnstarred(v, d);
  }

  predicate Within(v: Vars, n: nat) {
    Tracks(v) && v.argNum <= n && v.maxArg <= n
  }

  /** The scanner and the host read the same operands, as long as they are there. */
  lemma StepAgrees<V>(d: Directive, i: nat, v: Vars, vals: seq<V>)
    requires DirectiveOk(d) && d.verb != '%' && !Mixed(d) && Within(v, |vals|)
    ensures var (e, next) := Print1(d, ShownAll(vals), v.argNum);
      && (Usable(Record(d, i, v), |vals|) <==> Whole(e))
      && (Whole(e) ==> Within(Step(d, i, v).1, |vals|) && next == Step(d, i, v).1.argNum && e.Verb?)
    ensures Step(d, i, v).1.reordered == (v.reordered || UsesIndex(d))
  {
    hide Step, Print1, Record;
    if UsesIndex(d) {
      RecordIndexed(d, i, v);
      PrintIndexed(d, ShownAll(vals), v.argNum);
    } else {
      RecordPlain(d, i, v);
      PrintPlain(d, ShownAll(vals), v.argNum);
    }
  }

  lemma RenumberedPlain(d: Directive)
    requires DirectiveOk(d) && d.verb != '%' && !Mixed(d)
    ensures var r := Renumbered(d);
      DirectiveOk(r) && !UsesIndex(r) && r.verb == NewVerb(d.verb) && r.verb != '%' && Stars(r) == Stars(d)
        && r.flags == d.flags
  {
  }

  lemma RebuiltPlain<V>(d: Directive, f: Found, v: Vars, vals: seq<V>, ops: seq<Arg<V>>, b: nat)
    requires DirectiveOk(d) && d.verb != '%' && !UsesIndex(d) && v.argNum >= 0
    requires f.pos == v.argNum + Stars(d) && f.verb == d.verb
    requires f.stars == (if Stars(d) == 0 then [] else if Stars(d) == 1 then [v.argNum] else [v.argNum, v.argNum + 1])
    requires Usable(f, |vals|) && b <= |ops| && DirOperands(f, vals) <= ops[b..]
    ensures DirectiveOk(Renumbered(d))
    ensures Print1(Renumbered(d), ops, b)
         == (Prerender(Print1(d, ShownAll(vals), v.argNum).0), b + |DirOperands(f, vals)|)
  {
    hide Print1, DirectiveOk;
    var mine := DirOperands(f, vals);
    assert forall k :: 0 <= k < |mine| ==> ops[b + k] == ops[b..][k] == mine[k];
    RenumberedPlain(d);
    PrintPlain(d, ShownAll(vals), v.argNum);
    PrintPlain(Renumbered(d), ops, b);
    SameSizes(d, ops, b, ShownAll(vals), v.argNum);
  }

  lemma SameSizes<V>(d: Directive, ops: seq<Arg<V>>, b: nat, all: seq<Arg<V>>, a: nat)
    requires !UsesIndex(d) && d.verb != '%' && b + Stars(d) < |ops| && a + Stars(d) < |all|
    requires (Stars(d) > 0 ==> ops[b] == all[a]) && (Stars(d) > 1 ==> ops[b + 1] == all[a + 1])
    ensures PlainWidth(Renumbered(d), ops, b) == PlainWidth(d, all, a)
    ensures PlainPrec(Renumbered(d), ops, b) == PlainPrec(d, all, a)
  {
  }

  lemma RebuiltIndexed<V>(d: Directive, f: Found, next: nat, vals: seq<V>, ops: seq<Arg<V>>, b: nat)
    requires DirectiveOk(d) && d.verb != '%' && !HasStar(d) && d.idx.Some?
    requires f.pos == Number(d.idx.value) - 1 && f.verb == d.verb && f.stars == []
    requires Usable(f, |vals|) && b <= |ops| && DirOperands(f, vals) <= ops[b..]
    ensures DirectiveOk(Renumbered(d))
    ensures Print1(Renumbered(d), ops, b)
         == (Prerender(Print1(d, ShownAll(vals), next).0), b + |DirOperands(f, vals)|)
  {
    hide Print1, DirectiveOk;
    var mine := DirOperands(f, vals);
    assert mine == [Rendered(d.verb, vals[f.pos])];
    assert ops[b] == ops[b..][0] == mine[0];
    RenumberedPlain(d);
    PrintIndexed(d, ShownAll(vals), next);
    PrintPlain(Renumbered(d), ops, b);
  }

  /** Over the rebuilt operands the renumbered directive prints what the directive did. */
  lemma RebuiltAgrees<V>(d: Directive, i: nat, v: Vars, vals: seq<V>, ops: seq<Arg<V>>, b: nat)
    requires DirectiveOk(d) && d.verb != '%' && !Mixed(d) && Within(v, |vals|) && b <= |ops|
    requires Usable(Record(d, i, v), |vals|) && DirOperands(Record(d, i, v), vals) <= ops[b..]
    ensures DirectiveOk(Renumbered(d))
    ensures Print1(Renumbered(d), ops, b)
         == (Prerender(Print1(d, ShownAll(vals), v.argNum).0), b + |DirOperands(Record(d, i, v), vals)|)
  {
    hide Print1, Record, DirOperands, Usable;
    if UsesIndex(d) {
      RecordIndexed(d, i, v);
      RebuiltIndexed(d, Record(d, i, v), v.argNum, vals, ops, b);
    } else {
      RecordPlain(d, i, v);
      RebuiltPlain(d, Record(d, i, v), v, vals, ops, b);
    }
  }

  // ---- All directives: the scan and the host read the same operands -------------------------------

  lemma StepPercent(d: Directive, i: nat, v: Vars)
    requires DirectiveOk(d) && d.verb == '%' && !UsesIndex(d) && Tracks(v)
    ensures Step(d, i, v) == ([], Vars(v.argNum + Stars(d),
      if Stars(d) > 0 && v.argNum + Stars(d) > v.maxArg then v.argNum + Stars(d) else v.maxArg, v.reordered))
  {
    hide OnDirective;
    OnPlainSizes(v, d);
  }

  lemma StepRecord(d: Directive, i: nat, v: Vars)
    requires DirectiveOk(d)
    ensures Step(d, i, v).0 == if d.verb == '%' then [] else [Record(d, i, v)]
  {
  }

  lemma StepGrows(d: Directive, i: nat, v: Vars)
    requires DirectiveOk(d)
    ensures Step(d, i, v).1.maxArg >= v.maxArg
  {
  }

  lemma {:induction false} MaxGrows(items: seq<Item>, i: nat, v: Vars)
    requires ItemsOk(items)
    ensures FoundIn(items, i, v).1.maxArg >= v.maxArg
    decreases |items|
  {
    hide Text, FoundIn, Step;
    if items == [] {
      FoundNone(i, v);
    } else if items[0].Lit? {
      FoundLit(items, i, v);
      MaxGrows(items[1..], i + |items[0].s|, v);
    } else {
      var d := items[0].d;
      FoundStep(items, i, v);
      StepGrows(d, i, v);
      MaxGrows(items[1..], i + |Text(d)|, Step(d, i, v).1);
    }
  }

  lemma UsableCons(f: Found, fs: seq<Found>, n: nat)
    ensures AllUsable([f] + fs, n) <==> Usable(f, n) && AllUsable(fs, n)
  {
    var all := [f] + fs;
    assert all[0] == f && all[1..] == fs;
    if AllUsable(all, n) {
      assert forall k :: 0 <= k < |fs| ==> fs[k] == all[k + 1];
    }
  }

  /** Found and final variables, seen from the first directive. */
  lemma FoundFirst(items: seq<Item>, i: nat, v: Vars)
    requires ItemsOk(items) && items != [] && items[0].Dir?
    ensures DirectiveOk(items[0].d) && ItemsOk(items[1..])
    ensures var d, rest := items[0].d, FoundIn(items[1..], i + |Text(items[0].d)|, Step(items[0].d, i, v).1);
      FoundIn(items, i, v) == (if d.verb == '%' then rest.0 else [Record(d, i, v)] + rest.0, rest.1)
  {
    hide FoundIn, Step, Record, ItemsOk, DirectiveOk, Text;
    FoundStep(items, i, v);
    StepRecord(items[0].d, i, v);
    assert [] + FoundIn(items[1..], i + |Text(items[0].d)|, Step(items[0].d, i, v).1).0
        == FoundIn(items[1..], i + |Text(items[0].d)|, Step(items[0].d, i, v).1).0;
  }

  /** The print of the first directive and of the rest. */
  lemma PrintFirst<V>(items: seq<Item>, ops: seq<Arg<V>>, next: nat, r: bool)
    requires ItemsOk(items) && items != [] && items[0].Dir?
    ensures DirectiveOk(items[0].d) && ItemsOk(items[1..])
    ensures var (e, n) := Print1(items[0].d, ops, next);
      Print(items, ops, next, r) == [e] + Print(items[1..], ops, n, r || UsesIndex(items[0].d))
  {
    hide Print1, DirectiveOk, UsesIndex;
  }

  /** The scan may be used, and claims no operand that is not there. */
  predicate ScanFits(items: seq<Item>, i: nat, v: Vars, n: nat)
    requires ItemsOk(items)
  {
    AllUsable(FoundIn(items, i, v).0, n) && FoundIn(items, i, v).1.maxArg <= n
  }

  predicate PrintsWhole<V>(items: seq<Item>, v: Vars, vals: seq<V>)
    requires ItemsOk(items)
  {
    v.argNum >= 0 && AllWhole(Print(items, ShownAll(vals), v.argNum, v.reordered))
  }

  predicate FitAgrees<V>(items: seq<Item>, i: nat, v: Vars, vals: seq<V>)
    requires ItemsOk(items)
  {
    Within(v, |vals|) ==>
      (ScanFits(items, i, v, |vals|) <==> PrintsWhole(items, v, vals))
      && (ScanFits(items, i, v, |vals|) ==> Within(FoundIn(items, i, v).1, |vals|))
  }

  lemma PercentFits<V>(items: seq<Item>, i: nat, v: Vars, vals: seq<V>)
    requires ItemsOk(items) && items != [] && items[0].Dir? && items[0].d.verb == '%' && !UsesIndex(items[0].d)
    requires DirectiveOk(items[0].d)
    requires FitAgrees(items[1..], i + |Text(items[0].d)|, Step(items[0].d, i, v).1, vals)
    ensures FitAgrees(items, i, v, vals)
  {
    hide Text, Step, DirectiveOk, UsesIndex, Print1, Print, ItemsOk, FoundIn, ShownAll;
    if Within(v, |vals|) {
      var d, ops := items[0].d, ShownAll(vals);
      FoundFirst(items, i, v);
      PrintFirst(items, ops, v.argNum, v.reordered);
      StepPercent(d, i, v);
      PrintPercent(d, ops, v.argNum);
      MaxGrows(items[1..], i + |Text(d)|, Step(d, i, v).1);
      WholeCons(Print1(d, ops, v.argNum).0, Print(items[1..], ops, Print1(d, ops, v.argNum).1, v.reordered));
    }
  }

  lemma WholeCons<V>(e: Event<V>, es: seq<Event<V>>)
    ensures AllWhole([e] + es) <==> Whole(e) && AllWhole(es)
  {
    assert ([e] + es)[1..] == es;
  }

  lemma VerbFits<V>(items: seq<Item>, i: nat, v: Vars, vals: seq<V>)
    requires ItemsOk(items) && items != [] && items[0].Dir? && items[0].d.verb != '%' && !Mixed(items[0].d)
    requires DirectiveOk(items[0].d)
    requires FitAgrees(items[1..], i + |Text(items[0].d)|, Step(items[0].d, i, v).1, vals)
    ensures FitAgrees(items, i, v, vals)
  {
    hide Text, Step, DirectiveOk, UsesIndex, Print1, Print, ItemsOk, FoundIn, ShownAll, Mixed, Usable, AllUsable;
    hide Record, Whole, AllWhole;
    if Within(v, |vals|) {
      var d, ops := items[0].d, ShownAll(vals);
      FoundFirst(items, i, v);
      PrintFirst(items, ops, v.argNum, v.reordered);
      StepAgrees(d, i, v, vals);
      UsableCons(Record(d, i, v), FoundIn(items[1..], i + |Text(d)|, Step(d, i, v).1).0, |vals|);
      WholeCons(Print1(d, ops, v.argNum).0,
        Print(items[1..], ops, Print1(d, ops, v.argNum).1, v.reordered || UsesIndex(d)));
    }
  }

  lemma LitFits<V>(items: seq<Item>, i: nat, v: Vars, vals: seq<V>)
    requires ItemsOk(items) && items != [] && items[0].Lit?
    requires FitAgrees(items[1..], i + |items[0].s|, v, vals)
    ensures FitAgrees(items, i, v, vals)
  {
    hide AllUsable, AllWhole, ShownAll;
    if Within(v, |vals|) {
      WholeCons(Plain(items[0].s), Print(items[1..], ShownAll(vals), v.argNum, v.reordered));
    }
  }

  /** The scan fits exactly when the host finds every operand, and then it ends where the
      host does. */
  lemma {:induction false} FitsIffWhole<V>(items: seq<Item>, i: nat, v: Vars, vals: seq<V>)
    requires ItemsOk(items) && Unmixed(items) && NoPercentIndex(items)
    ensures FitAgrees(items, i, v, vals)
    decreases |items|
  {
    hide Text, UsesIndex, FitAgrees;
    if items == [] {
      assert FitAgrees(items, i, v, vals) by { EmptyFits(items, i, v, vals); }
    } else if items[0].Lit? {
      FitsIffWhole(items[1..], i + |items[0].s|, v, vals);
      LitFits(items, i, v, vals);
    } else {
      var d := items[0].d;
      FitsIffWhole(items[1..], i + |Text(d)|, Step(d, i, v).1, vals);
      if d.verb == '%' { PercentFits(items, i, v, vals); } else { VerbFits(items, i, v, vals); }
    }
  }

  lemma EmptyFits<V>(items: seq<Item>, i: nat, v: Vars, vals: seq<V>)
    requires items == []
    ensures FitAgrees(items, i, v, vals)
  {
    if Within(v, |vals|) {
      var es := Print(items, ShownAll(vals), v.argNum, v.reordered);
      if es != [] {
        assert es[0].Extra? && AllWhole(es[1..]);
      }
      assert AllWhole(es);
    }
  }

  // ---- The rewritten string prints the same ---------------------------------------------------------

  /** Operands past the last one claimed, which only an index-free format reports. */
  function Leftover<V>(v: Vars, vals: seq<V>): seq<Arg<V>>
    requires Within(v, |vals|)
  {
    if v.reordered then [] else ShownAll(vals)[v.maxArg..]
  }

  /** The rebuilt operands from `b` on, and what printing them from there gives. */
  ghost predicate SamePrint<V>(items: seq<Item>, i: nat, v: Vars, vals: seq<V>, ops: seq<Arg<V>>, b: nat)
    requires ItemsOk(items)
  {
    ItemsOk(Renumber(items)) && v.argNum >= 0 &&
    Print(Renumber(items), ops, b, false) == PrerenderAll(Print(items, ShownAll(vals), v.argNum, v.reordered))
  }

  /** `ops` holds from `b` on the operands of the directives found, and then the rest. */
  ghost predicate Holds<V>(found: (seq<Found>, Vars), vals: seq<V>, ops: seq<Arg<V>>, b: nat) {
    && b <= |ops| && AllUsable(found.0, |vals|) && Within(found.1, |vals|)
    && ops[b..] == Operands(found.0, vals) + Leftover(found.1, vals)
  }

  lemma HoldsFirst<V>(f: Found, fs: seq<Found>, v: Vars, vals: seq<V>, ops: seq<Arg<V>>, b: nat)
    requires Holds(([f] + fs, v), vals, ops, b)
    ensures Usable(f, |vals|) && DirOperands(f, vals) <= ops[b..] && b + |DirOperands(f, vals)| <= |ops|
    ensures Holds((fs, v), vals, ops, b + |DirOperands(f, vals)|)
  {
    hide Usable, Within, Leftover, DirOperands;
    UsableCons(f, fs, |vals|);
    var mine, rest := DirOperands(f, vals), Operands(fs, vals) + Leftover(v, vals);
    assert ([f] + fs)[1..] == fs;
    assert ops[b..] == mine + rest;
    assert ops[b + |mine|..] == ops[b..][|mine|..] == rest;
  }

  lemma PrerenderCons<V>(e: Event<V>, es: seq<Event<V>>)
    ensures PrerenderAll([e] + es) == [Prerender(e)] + PrerenderAll(es)
  {
    assert ([e] + es)[1..] == es;
  }

  lemma EmptyPrints<V>(items: seq<Item>, i: nat, v: Vars, vals: seq<V>, ops: seq<Arg<V>>, b: nat)
    requires items == [] && Within(v, |vals|) && Holds(([], v), vals, ops, b)
    ensures SamePrint(items, i, v, vals, ops, b)
  {
    var es := Print(items, ShownAll(vals), v.argNum, v.reordered);
    assert ops[b..] == Leftover(v, vals);
    assert es != [] ==> es[1..] == [] && PrerenderAll(es) == es;
  }

  lemma RenumberFirst(items: seq<Item>)
    requires items != [] && ItemsOk(items)
    ensures var r := Renumber(items);
      r != [] && r[0] == NewItem(items[0]) && r[1..] == Renumber(items[1..]) && ItemsOk(r) && ItemsOk(r[1..])
  {
    RenumberOk(items);
  }

  lemma LitPrints<V>(items: seq<Item>, i: nat, v: Vars, vals: seq<V>, ops: seq<Arg<V>>, b: nat)
    requires ItemsOk(items) && items != [] && items[0].Lit?
    requires SamePrint(items[1..], i + |items[0].s|, v, vals, ops, b)
    ensures SamePrint(items, i, v, vals, ops, b)
  {
    hide PrerenderAll, ShownAll;
    RenumberFirst(items);
    PrerenderCons(Plain(items[0].s), Print(items[1..], ShownAll(vals), v.argNum, v.reordered));
  }

  /** A %% without star prints alike anywhere. */
  lemma PercentSame<V>(d: Directive, ops: seq<Arg<V>>, a: nat, ops': seq<Arg<V>>, b: nat)
    requires DirectiveOk(d) && d.verb == '%' && !UsesIndex(d) && !HasStar(d)
    ensures Print1(d, ops, a).1 == a && Print1(d, ops', b).1 == b
    ensures Print1(d, ops', b).0 == Print1(d, ops, a).0 == Prerender(Print1(d, ops, a).0)
  {
  }

  lemma PercentPrints<V>(items: seq<Item>, i: nat, v: Vars, vals: seq<V>, ops: seq<Arg<V>>, b: nat)
    requires ItemsOk(items) && items != [] && items[0].Dir? && v.argNum >= 0
    requires DirectiveOk(items[0].d) && items[0].d.verb == '%' && !UsesIndex(items[0].d) && !HasStar(items[0].d)
    requires SamePrint(items[1..], i + |Text(items[0].d)|, v, vals, ops, b)
    ensures SamePrint(items, i, v, vals, ops, b)
  {
    hide PrerenderAll, ShownAll, Print1, DirectiveOk, HasStar, UsesIndex, Print, ItemsOk, Text;
    var d, all := items[0].d, ShownAll(vals);
    RenumberFirst(items);
    PercentSame(d, all, v.argNum, ops, b);
    PrintFirst(items, all, v.argNum, v.reordered);
    PrintFirst(Renumber(items), ops, b, false);
    PrerenderCons(Print1(d, all, v.argNum).0, Print(items[1..], all, v.argNum, v.reordered));
  }

  lemma VerbPrints<V>(items: seq<Item>, i: nat, v: Vars, vals: seq<V>, ops: seq<Arg<V>>, b: nat, b': nat)
    requires ItemsOk(items) && items != [] && items[0].Dir? && Within(v, |vals|)
    requires DirectiveOk(items[0].d) && items[0].d.verb != '%' && !Mixed(items[0].d) && b <= |ops|
    requires Usable(Record(items[0].d, i, v), |vals|) && DirOperands(Record(items[0].d, i, v), vals) <= ops[b..]
    requires b' == b + |DirOperands(Record(items[0].d, i, v), vals)|
    requires SamePrint(items[1..], i + |Text(items[0].d)|, Step(items[0].d, i, v).1, vals, ops, b')
    ensures SamePrint(items, i, v, vals, ops, b)
  {
    hide PrerenderAll, ShownAll, Print1, DirectiveOk, HasStar, UsesIndex, Mixed, Print, ItemsOk, Text, Step, Record;
    hide Usable, DirOperands, Whole;
    var d, all := items[0].d, ShownAll(vals);
    RenumberFirst(items);
    StepAgrees(d, i, v, vals);
    RebuiltAgrees(d, i, v, vals, ops, b);
    RenumberedPlain(d);
    PrintFirst(items, all, v.argNum, v.reordered);
    PrintFirst(Renumber(items), ops, b, false);
    PrerenderCons(Print1(d, all, v.argNum).0,
      Print(items[1..], all, Print1(d, all, v.argNum).1, v.reordered || UsesIndex(d)));
  }

  lemma {:induction false} PrintAgrees<V>(items: seq<Item>, i: nat, v: Vars, vals: seq<V>, ops: seq<Arg<V>>, b: nat)
    requires ItemsOk(items) && Unmixed(items) && NoPercentIndex(items) && NoPercentStar(items)
    requires Within(v, |vals|) && Holds(FoundIn(items, i, v), vals, ops, b)
    ensures SamePrint(items, i, v, vals, ops, b)
    decreases |items|
  {
    hide Text, Within, UsesIndex, HasStar, Holds, SamePrint, FoundIn, Step, Record, DirOperands, Usable, Mixed;
    hide Print1, Whole;
    if items == [] {
      assert FoundIn(items, i, v) == ([], v) by { FoundNone(i, v); }
      EmptyPrints(items, i, v, vals, ops, b);
    } else if items[0].Lit? {
      FoundLit(items, i, v);
      PrintAgrees(items[1..], i + |items[0].s|, v, vals, ops, b);
      LitPrints(items, i, v, vals, ops, b);
    } else {
      var d := items[0].d;
      FoundFirst(items, i, v);
      var e, v' := i + |Text(d)|, Step(d, i, v).1;
      if d.verb == '%' {
        PercentKeeps(d, i, v, |vals|);
        PrintAgrees(items[1..], e, v, vals, ops, b);
        PercentPrints(items, i, v, vals, ops, b);
      } else {
        var found := FoundIn(items[1..], e, v');
        HoldsFirst(Record(d, i, v), found.0, found.1, vals, ops, b);
        StepAgrees(d, i, v, vals);
        var b' := b + |DirOperands(Record(d, i, v), vals)|;
        PrintAgrees(items[1..], e, v', vals, ops, b');
        VerbPrints(items, i, v, vals, ops, b, b');
      }
    }
  }

  lemma PercentKeeps(d: Directive, i: nat, v: Vars, n: nat)
    requires DirectiveOk(d) && d.verb == '%' && !UsesIndex(d) && !HasStar(d) && Within(v, n)
    ensures Step(d, i, v).1 == v && v.argNum >= 0
  {
    hide OnDirective, Step;
    StepPercent(d, i, v);
  }

  /** Without starred %% the recorded directives claim every operand there is a claim to. */
  lemma {:induction false} UsableFits<V>(items: seq<Item>, i: nat, v: Vars, vals: seq<V>)
    requires ItemsOk(items) && Unmixed(items) && NoPercentIndex(items) && NoPercentStar(items)
    requires Within(v, |vals|) && AllUsable(FoundIn(items, i, v).0, |vals|)
    ensures FoundIn(items, i, v).1.maxArg <= |vals|
    decreases |items|
  {
    hide Text, UsesIndex, HasStar, FoundIn, Step, Record, DirOperands, Usable, AllUsable, Mixed, Print1, Whole;
    if items == [] {
      FoundNone(i, v);
    } else if items[0].Lit? {
      FoundLit(items, i, v);
      UsableFits(items[1..], i + |items[0].s|, v, vals);
    } else {
      var d := items[0].d;
      FoundFirst(items, i, v);
      var e, v' := i + |Text(d)|, Step(d, i, v).1;
      if d.verb == '%' {
        PercentKeeps(d, i, v, |vals|);
      } else {
        UsableCons(Record(d, i, v), FoundIn(items[1..], e, v').0, |vals|);
        StepAgrees(d, i, v, vals);
      }
      UsableFits(items[1..], e, v', vals);
    }
  }

  // ---- The theorem ------------------------------------------------------------------------------------

  const START := Vars(0, 0, false)

  function Shown0<V>(items: seq<Item>, vals: seq<V>): seq<Event<V>>
    requires ItemsOk(items)
  {
    Print(items, ShownAll(vals), 0, false)
  }

  /** The promise: when the format finds all its operands and mixes no star with an index, the
      rewritten string over the rebuilt operands prints the same, %T and %p pre-rendered;
      otherwise string and operands are handed on untouched. */
  ghost predicate Faithful<V>(items: seq<Item>, vals: seq<V>)
    requires ItemsOk(items)
  {
    var out := Rewrite(Render(items), vals);
    && out.Done?
    && if Unmixed(items) && AllWhole(Shown0(items, vals)) then
         HostPrint(out.spec, out.ops) == Some(PrerenderAll(Shown0(items, vals)))
       else out == Done(Render(items), ShownAll(vals))
  }

  lemma ScanOf(items: seq<Item>)
    requires ItemsOk(items)
    ensures ScanAll(Render(items), 0, START) == FoundIn(items, 0, START)
    ensures Matches(items, 0, FoundIn(items, 0, START).0)
    ensures Laid(Render(items), 0, items)
  {
    var spec := Render(items);
    assert spec[0..] == spec;
    RenderLaid(spec, 0, items);
    ScanItems(spec, 0, items, START);
    FoundMatches(items, 0, START);
  }

  lemma {:induction false} CleanIsUnmixed(items: seq<Item>)
    requires AllClean(items)
    ensures Unmixed(items)
  {
    if items != [] { CleanIsUnmixed(items[1..]); }
  }

  lemma {:induction false} UnmixedIsClean(items: seq<Item>)
    requires ItemsOk(items) && Unmixed(items)
    ensures AllClean(items)
    decreases |items|
  {
    hide DirectiveOk, Mixed;
    if items != [] { UnmixedIsClean(items[1..]); }
  }

  /** A rebuilt string, in terms of the items. */
  lemma RewriteBuilds<V>(items: seq<Item>, vals: seq<V>)
    requires ItemsOk(items) && Unmixed(items) && ScanFits(items, 0, START, |vals|)
    requires Within(FoundIn(items, 0, START).1, |vals|)
    ensures var found := FoundIn(items, 0, START);
      Rewrite(Render(items), vals)
        == Done(Render(Renumber(items)), Operands(found.0, vals) + Leftover(found.1, vals))
  {
    hide FoundIn, Matches, ScanAll, AllUsable, Renumber, Render, Operands, Build;
    var spec, found := Render(items), FoundIn(items, 0, START);
    ScanOf(items);
    UnmixedIsClean(items);
    BuildItems(spec, 0, 0, items, found.0);
    assert spec[0..0] + Render(Renumber(items)) == Render(Renumber(items));
    assert Operands(found.0, vals) + [] == Operands(found.0, vals);
  }

  lemma RewriteSkips<V>(items: seq<Item>, vals: seq<V>)
    requires ItemsOk(items) && !AllUsable(FoundIn(items, 0, START).0, |vals|)
    ensures Rewrite(Render(items), vals) == Done(Render(items), ShownAll(vals))
  {
    ScanOf(items);
  }

  /** A format that mixes is not rebuilt. */
  lemma MixedSkips<V>(items: seq<Item>, vals: seq<V>)
    requires ItemsOk(items) && !Unmixed(items)
    ensures Rewrite(Render(items), vals) == Done(Render(items), ShownAll(vals))
  {
    hide FoundIn, Matches, ScanAll, AllUsable, Render, Rewrite;
    ScanOf(items);
    if AllUsable(FoundIn(items, 0, START).0, |vals|) {
      UsableIsClean(items, 0, FoundIn(items, 0, START).0, |vals|);
      CleanIsUnmixed(items);
    }
    RewriteSkips(items, vals);
  }

  /** The rewriting keeps what a format prints, if no %% has a star or an index. */
  lemma RewritePreserves<V>(items: seq<Item>, vals: seq<V>)
    requires ItemsOk(items) && NoPercentIndex(items) && NoPercentStar(items)
    ensures Faithful(items, vals)
  {
    hide FoundIn, AllUsable, Render, Rewrite, Operands, Print, PrerenderAll, Renumber, AllWhole, ItemsOk;
    if !Unmixed(items) {
      MixedSkips(items, vals);
    } else {
      FitsIffWhole(items, 0, START, vals);
      if ScanFits(items, 0, START, |vals|) {
        var found := FoundIn(items, 0, START);
        var ops := Operands(found.0, vals) + Leftover(found.1, vals);
        RewriteBuilds(items, vals);
        assert ops[0..] == ops;
        PrintAgrees(items, 0, START, vals, ops, 0);
        RenumberOk(items);
        ParseRender(Renumber(items));
      } else {
        if AllUsable(FoundIn(items, 0, START).0, |vals|) { UsableFits(items, 0, START, vals); }
        RewriteSkips(items, vals);
      }
    }
  }

  // ---- Exactly when ---------------------------------------------------------------------------------

  predicate IndexFree(items: seq<Item>) {
    items != [] ==> (items[0].Dir? ==> !UsesIndex(items[0].d)) && IndexFree(items[1..])
  }

  function Need(t: Item): nat {
    if t.Lit? then 0 else Stars(t.d) + if t.d.verb == '%' then 0 else 1
  }

  /** The operands an index-free format reads. */
  function Needs(items: seq<Item>): nat {
    if items == [] then 0 else Need(items[0]) + Needs(items[1..])
  }

  lemma {:induction false} WholeNeeds<V>(items: seq<Item>, ops: seq<Arg<V>>, b: nat, r: bool)
    requires ItemsOk(items) && IndexFree(items) && b <= |ops| && AllWhole(Print(items, ops, b, r))
    ensures b + Needs(items) <= |ops|
    decreases |items|
  {
    hide UsesIndex, DirectiveOk, Whole, Print1;
    if items != [] {
      if items[0].Lit? {
        WholeCons(Plain(items[0].s), Print(items[1..], ops, b, r));
        WholeNeeds(items[1..], ops, b, r);
      } else {
        var d := items[0].d;
        var (e, n) := Print1(d, ops, b);
        PrintFirst(items, ops, b, r);
        WholeCons(e, Print(items[1..], ops, n, r || UsesIndex(d)));
        if d.verb == '%' { PrintPercent(d, ops, b); } else { PrintPlain(d, ops, b); }
        WholeNeeds(items[1..], ops, n, r);
      }
    }
  }

  lemma {:induction false} RenumberedFree(items: seq<Item>)
    requires ItemsOk(items) && Unmixed(items) && NoPercentIndex(items)
    ensures IndexFree(Renumber(items))
    decreases |items|
  {
    hide DirectiveOk;
    if items != [] {
      RenumberedFree(items[1..]);
      RenumberFirst(items);
    }
  }

  /** The stars of %% directives, whose operands the rebuilt list leaves out. */
  function PercentStars(items: seq<Item>): (n: nat)
    ensures n == 0 <==> NoPercentStar(items)
  {
    if items == [] then 0
    else (if items[0].Dir? && items[0].d.verb == '%' then Stars(items[0].d) else 0) + PercentStars(items[1..])
  }

  lemma RecordCount<V>(d: Directive, i: nat, v: Vars, vals: seq<V>)
    requires DirectiveOk(d) && d.verb != '%' && !Mixed(d) && Tracks(v) && Usable(Record(d, i, v), |vals|)
    ensures |DirOperands(Record(d, i, v), vals)| == Stars(Renumbered(d)) + 1 && Tracks(Step(d, i, v).1)
  {
    hide Record, Step;
    if UsesIndex(d) { RecordIndexed(d, i, v); } else { RecordPlain(d, i, v); }
  }

  lemma {:induction false} OperandCount<V>(items: seq<Item>, i: nat, v: Vars, vals: seq<V>)
    requires ItemsOk(items) && Unmixed(items) && NoPercentIndex(items) && Tracks(v)
    requires AllUsable(FoundIn(items, i, v).0, |vals|)
    ensures |Operands(FoundIn(items, i, v).0, vals)| + PercentStars(items) == Needs(Renumber(items))
    decreases |items|
  {
    hide Text, UsesIndex, FoundIn, Step, Record, DirOperands, Usable, AllUsable, Mixed, DirectiveOk, HasStar, Stars;
    hide Tracks;
    if items == [] {
      FoundNone(i, v);
    } else {
      RenumberFirst(items);
      if items[0].Lit? {
        FoundLit(items, i, v);
        OperandCount(items[1..], i + |items[0].s|, v, vals);
      } else {
        CountDirective(items, i, v, vals);
        OperandCount(items[1..], i + |Text(items[0].d)|, Step(items[0].d, i, v).1, vals);
      }
    }
  }

  /** What the first directive adds to the operands. */
  lemma CountDirective<V>(items: seq<Item>, i: nat, v: Vars, vals: seq<V>)
    requires ItemsOk(items) && items != [] && items[0].Dir? && Tracks(v)
    requires if items[0].d.verb == '%' then !UsesIndex(items[0].d) else !Mixed(items[0].d)
    requires AllUsable(FoundIn(items, i, v).0, |vals|)
    ensures DirectiveOk(items[0].d) && ItemsOk(items[1..]) && Tracks(Step(items[0].d, i, v).1)
    ensures var d := items[0].d;
      var rest := FoundIn(items[1..], i + |Text(d)|, Step(d, i, v).1);
      && AllUsable(rest.0, |vals|)
      && |Operands(FoundIn(items, i, v).0, vals)|
         == |Operands(rest.0, vals)| + if d.verb == '%' then 0 else Stars(Renumbered(d)) + 1
  {
    hide Text, UsesIndex, FoundIn, Step, Record, DirOperands, Usable, AllUsable, Mixed, DirectiveOk, HasStar, Stars;
    hide ItemsOk;
    var d := items[0].d;
    FoundFirst(items, i, v);
    if d.verb == '%' {
      StepPercent(d, i, v);
    } else {
      var rest := FoundIn(items[1..], i + |Text(d)|, Step(d, i, v).1).0;
      UsableCons(Record(d, i, v), rest, |vals|);
      RecordCount(d, i, v, vals);
      assert ([Record(d, i, v)] + rest)[1..] == rest;
    }
  }

  /** With as many operands as the scan claims, it fits. */
  lemma {:induction false} MaxCovers(items: seq<Item>, i: nat, v: Vars, n: nat)
    requires ItemsOk(items) && Unmixed(items) && NoPercentIndex(items) && Tracks(v)
    requires FoundIn(items, i, v).1.maxArg <= n
    ensures AllUsable(FoundIn(items, i, v).0, n)
    decreases |items|
  {
    hide Text, UsesIndex, FoundIn, Step, Record, Usable, Mixed, DirectiveOk, HasStar, Tracks;
    if items == [] {
      FoundNone(i, v);
    } else if items[0].Lit? {
      FoundLit(items, i, v);
      MaxCovers(items[1..], i + |items[0].s|, v, n);
    } else {
      var d := items[0].d;
      FoundFirst(items, i, v);
      var e, v' := i + |Text(d)|, Step(d, i, v).1;
      MaxGrows(items[1..], e, v');
      if d.verb == '%' {
        StepPercent(d, i, v);
        assert Tracks(v') by { PercentTracks(d, i, v); }
        MaxCovers(items[1..], e, v', n);
      } else {
        RecordCovered(d, i, v, n);
        MaxCovers(items[1..], e, v', n);
        UsableCons(Record(d, i, v), FoundIn(items[1..], e, v').0, n);
      }
    }
  }

  lemma PercentTracks(d: Directive, i: nat, v: Vars)
    requires DirectiveOk(d) && d.verb == '%' && !UsesIndex(d) && Tracks(v)
    ensures Tracks(Step(d, i, v).1)
  {
    hide Step;
    StepPercent(d, i, v);
  }

  lemma RecordCovered(d: Directive, i: nat, v: Vars, n: nat)
    requires DirectiveOk(d) && d.verb != '%' && !Mixed(d) && Tracks(v) && Step(d, i, v).1.maxArg <= n
    ensures Usable(Record(d, i, v), n) && Tracks(Step(d, i, v).1)
  {
    hide Record, Step;
    if UsesIndex(d) { RecordIndexed(d, i, v); } else { RecordPlain(d, i, v); }
  }

  lemma {:induction false} PrerenderWhole<V>(es: seq<Event<V>>)
    requires AllWhole(es)
    ensures AllWhole(PrerenderAll(es))
  {
    if es != [] {
      PrerenderWhole(es[1..]);
      assert PrerenderAll(es)[1..] == PrerenderAll(es[1..]);
    }
  }

  /** A starred %% loses its operand: given just the operands it reads, the format no longer
      finds them all after the rewriting. */
  lemma StarredPercentLoses<V>(items: seq<Item>, x: V) returns (vals: seq<V>)
    requires ItemsOk(items) && NoPercentIndex(items) && Unmixed(items) && !NoPercentStar(items)
    ensures AllWhole(Shown0(items, vals)) && !Faithful(items, vals)
  {
    hide FoundIn, AllUsable, Render, Rewrite, Operands, Print, PrerenderAll, Renumber, AllWhole, ItemsOk;
    var found := FoundIn(items, 0, START);
    MaxGrows(items, 0, START);
    var n: nat := found.1.maxArg;
    vals := seq(n, _ => x);
    MaxCovers(items, 0, START, n);
    FitsIffWhole(items, 0, START, vals);
    RewriteBuilds(items, vals);
    OperandCount(items, 0, START, vals);
    RenumberedFree(items);
    RenumberOk(items);
    ParseRender(Renumber(items));
    PrerenderWhole(Shown0(items, vals));
    assert Leftover(found.1, vals) == [];
    var ops := Operands(found.0, vals) + Leftover(found.1, vals);
    if AllWhole(Print(Renumber(items), ops, 0, false)) {
      WholeNeeds(Renumber(items), ops, 0, false);
    }
  }

  /** For formats whose %% carry no index, the rewriting keeps what is printed over every list
      of operands exactly when no %% has a star, or some directive mixes stars and indexes and
      nothing is rewritten. `x` is any operand. */
  lemma FaithfulIff<V(!new)>(items: seq<Item>, x: V)
    requires ItemsOk(items) && NoPercentIndex(items)
    ensures (forall vals: seq<V> :: Faithful(items, vals)) <==> NoPercentStar(items) || !Unmixed(items)
  {
    hide Render, Rewrite, AllWhole, ItemsOk, Shown0;
    if !Unmixed(items) {
      forall vals: seq<V> ensures Faithful(items, vals) { MixedSkips(items, vals); }
    } else if NoPercentStar(items) {
      forall vals: seq<V> ensures Faithful(items, vals) { RewritePreserves(items, vals); }
    } else {
      var vals := StarredPercentLoses(items, x);
    }
  }

  /** `%*%` with no operands: slicing off the claimed operands fails. */
  lemma StarredPercentPanics()
    ensures Rewrite<int>("%*%", []) == Panic
  {
    var d := Directive("", Star(None), None, None, '%');
    var items := [Dir(d)];
    assert Text(d) == "%*%";
    assert Render(items) == "%*%";
    assert items[1..] == [];
    ScanOf(items);
    OnPlainSizes(START, d);
  }

  const TYPE_VERB := Directive("", NoSize, None, None, 'T')
  const ADDR_VERB := Directive("", NoSize, None, None, 'p')

  lemma TypeAddrItems() returns (items: seq<Item>)
    ensures items == [Dir(TYPE_VERB), Dir(ADDR_VERB)] && items[1..] == [Dir(ADDR_VERB)] && items[1..][1..] == []
    ensures ItemsOk(items) && Render(items) == "%T%p" && |Text(TYPE_VERB)| == |Text(ADDR_VERB)| == 2
  {
    items := [Dir(TYPE_VERB), Dir(ADDR_VERB)];
    assert Text(TYPE_VERB) == "%T" && Text(ADDR_VERB) == "%p";
    var rest := items[1..];
    assert rest == [Dir(ADDR_VERB)] && rest[1..] == [];
    assert Render(rest) == Text(ADDR_VERB) + "" == "%p";
    assert Render(items) == Text(TYPE_VERB) + Render(rest) == "%T%p";
    OkDir(rest);
    OkDir(items);
  }

  lemma TypeAddrScan()
    ensures ScanAll("%T%p", 0, START)
      == ([Found(0, 2, 0, 'T', [], false), Found(2, 4, 1, 'p', [], false)], Vars(2, 2, false))
  {
    hide Render, ItemsOk, ScanAll, Step, FoundIn, Matches, Laid, Text;
    var items := TypeAddrItems();
    ScanOf(items);
    TypeAddrSteps();
    var a, b, v := Found(0, 2, 0, 'T', [], false), Found(2, 4, 1, 'p', [], false), Vars(1, 1, false);
    FoundStep(items, 0, START);
    FoundStep(items[1..], 2, v);
    FoundNone(4, Vars(2, 2, false));
    assert [b] + [] == [b] && [a] + [b] == [a, b];
    assert FoundIn(items[1..], 2, v) == ([b], Vars(2, 2, false));
    assert FoundIn(items, 0, START) == ([a, b], Vars(2, 2, false));
  }

  lemma TypeAddrSteps()
    ensures Step(TYPE_VERB, 0, START) == ([Found(0, 2, 0, 'T', [], false)], Vars(1, 1, false))
    ensures Step(ADDR_VERB, 2, Vars(1, 1, false)) == ([Found(2, 4, 1, 'p', [], false)], Vars(2, 2, false))
    ensures DirectiveOk(TYPE_VERB) && DirectiveOk(ADDR_VERB)
  {
  }

  /** `%T%p` over two operands: the text of the first one's type, then that of the second one's
      address. */
  lemma TypeThenAddress<V>(x: V, y: V)
    ensures Rewrite("%T%p", [x, y]) == Done("%s%s", [TypeText(x), AddrText(y)])
  {
    hide ScanAll;
    var spec, a, b := "%T%p", Found(0, 2, 0, 'T', [], false), Found(2, 4, 1, 'p', [], false);
    TypeAddrScan();
    assert [a, b][1..] == [b] && [b][1..] == [] && Strip(spec[1..1], 0) == "" && Strip(spec[3..3], 0) == "";
    assert Build(spec, 4, []) == "";
    assert Build(spec, 2, [b]) == "" + "%" + "" + ['s'] + "" == "%s";
    assert Build(spec, 0, [a, b]) == "" + "%" + "" + ['s'] + "%s" == "%s%s";
    assert AllUsable([b], 2) && AllUsable([a, b], 2);
    assert Operands<V>([], [x, y]) == [];
    assert DirOperands(b, [x, y]) == [AddrText(y)];
    assert DirOperands(a, [x, y]) == [TypeText(x)];
    assert Operands([b], [x, y]) == [AddrText(y)];
    assert Operands([a, b], [x, y]) == [TypeText(x)] + [AddrText(y)];
    assert ShownAll([x, y])[2..] == [];
  }

  lemma NumberTwo()
    ensures Digits("2") && Number("2") == 2
  {
    var s := "2";
    assert s[..|s| - 1] == "" && Number("") == 0;
  }

  const INDEXED := Directive("", NoSize, None, Some("2"), '%')
  const DECIMAL := Directive("", NoSize, None, None, 'd')

  lemma IndexedItems() returns (items: seq<Item>)
    ensures items == [Dir(INDEXED), Dir(DECIMAL)] && items[1..] == [Dir(DECIMAL)] && items[1..][1..] == []
    ensures |Text(INDEXED)| == 5 && ItemsOk(items) && Render(items) == "%[2]%%d" && Number("2") == 2
  {
    items := [Dir(INDEXED), Dir(DECIMAL)];
    NumberTwo();
    assert Text(INDEXED) == "%[2]%" && Text(DECIMAL) == "%d";
    var rest := items[1..];
    assert rest == [Dir(DECIMAL)] && rest[1..] == [];
    assert Render(rest) == Text(DECIMAL) + "" == "%d";
    assert Render(items) == Text(INDEXED) + Render(rest) == "%[2]%%d";
    OkDir(rest);
    OkDir(items);
  }

  lemma OkDir(items: seq<Item>)
    requires items != [] && items[0].Dir? && DirectiveOk(items[0].d) && ItemsOk(items[1..])
    ensures ItemsOk(items)
  {
  }

  /** fmt's reading of `%[2]%%d`: the %% moves the cursor to the second operand. */
  lemma IndexedPrints(ops: seq<Arg<int>>, op: Arg<int>)
    requires if |ops| >= 2 then op == ops[1] else ops == [op]
    ensures HostPrint("%[2]%%d", ops) == Some([Percent(Absent, Absent), Verb("", Absent, Absent, 'd', op)])
  {
    hide Render, Text, HostParse, ItemsOk, Number, Print, Step;
    var items := IndexedItems();
    ParseRender(items);
    IndexedSteps();
    PrintFirst(items, ops, 0, false);
    var next := if |ops| >= 2 then 1 else 0;
    assert Print1(INDEXED, ops, 0) == (Percent(Absent, Absent), next);
    assert Print1(DECIMAL, ops, next) == (Verb("", Absent, Absent, 'd', op), next + 1);
    PrintFirst(items[1..], ops, next, true);
    assert Print(items[1..][1..], ops, next + 1, true) == [] by { PrintNothing(ops, next + 1); }
    assert Print(items, ops, 0, false) == [Percent(Absent, Absent), Verb("", Absent, Absent, 'd', op)];
  }

  lemma PrintNothing<V>(ops: seq<Arg<V>>, next: nat)
    ensures Print([], ops, next, true) == []
  {
  }

  lemma IndexedScan()
    ensures ScanAll("%[2]%%d", 0, START).0 == [Found(5, 7, 2, 'd', [], false)]
    ensures ScanAll("%[2]%%d", 0, START).1.reordered
  {
    hide Render, ItemsOk, Number, ScanAll, Step, FoundIn, Matches, Laid, Text;
    var items := IndexedItems();
    ScanOf(items);
    IndexedSteps();
    var v := Vars(2, 0, true);
    FoundStep(items, 0, START);
    FoundStep(items[1..], 5, v);
    FoundNone(7, Vars(3, 3, true));
    assert FoundIn(items[1..], 5, v).0 == [Found(5, 7, 2, 'd', [], false)];
    assert FoundIn(items, 0, START).0 == [Found(5, 7, 2, 'd', [], false)];
  }

  lemma IndexedSteps()
    ensures |Text(INDEXED)| == 5 && |Text(DECIMAL)| == 2
    ensures DirectiveOk(INDEXED) && DirectiveOk(DECIMAL)
    ensures Step(INDEXED, 0, START) == ([], Vars(2, 0, true))
    ensures Step(DECIMAL, 5, Vars(2, 0, true)) == ([Found(5, 7, 2, 'd', [], false)], Vars(3, 3, true))
  {
    NumberTwo();
  }

  lemma IndexedRewrite()
    ensures Rewrite("%[2]%%d", [7, 8, 9]) == Done("%[2]%%d", [Shown(9)])
  {
    hide ScanAll;
    var spec, fs := "%[2]%%d", [Found(5, 7, 2, 'd', [], false)];
    IndexedScan();
    assert fs[1..] == [] && Strip(spec[6..6], 0) == "";
    assert Build(spec, 7, []) == "";
    assert Build(spec, 0, fs) == spec[0..5] + "%" + "" + ['d'] + "" == spec;
    assert DirOperands(fs[0], [7, 8, 9]) == [Shown(9)];
    assert Operands(fs, [7, 8, 9]) == [Shown(9)];
  }

  /** `%[2]%%d`: fmt prints the second operand, the rewriting hands over the third. */
  lemma IndexedPercentMisreads()
    ensures HostPrint("%[2]%%d", ShownAll([7, 8, 9]))
      == Some([Percent(Absent, Absent), Verb("", Absent, Absent, 'd', Shown(8))])
    ensures Rewrite("%[2]%%d", [7, 8, 9]) == Done("%[2]%%d", [Shown(9)])
    ensures HostPrint("%[2]%%d", [Shown(9)]) == Some([Percent(Absent, Absent), Verb("", Absent, Absent, 'd', Shown(9))])
  {
    hide HostPrint, Rewrite;
    IndexedPrints(ShownAll([7, 8, 9]), Shown(8));
    IndexedPrints([Shown(9)], Shown(9));
    IndexedRewrite();
  }
}
