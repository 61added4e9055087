/** What the condition comes to: when the rewriting panics, that an index on %% does no harm once
    no operand is read any more, and what it takes for a directive after it to be read right. */
module TypeVerbsCases {
  import opened Basics
  import opened Format
  import opened Printf
  import opened TypeVerbs
  import opened TypeVerbsLaw
  import opened TypeVerbsMeaning
  import opened TypeVerbsExact

  // ---- The panic -----------------------------------------------------------------------------

  predicate HasVerb(items: seq<Item>) {
    items != [] && ((items[0].Dir? && items[0].d.verb != '%') || HasVerb(items[1..]))
  }

  /** The operands an index-free format reads up to its last directive other than %%. */
  function NeedsToVerb(items: seq<Item>): nat {
    if !HasVerb(items) then 0 else Need(items[0]) + NeedsToVerb(items[1..])
  }

  lemma StepReordered(d: Directive, i: nat, v: Vars)
    requires DirectiveOk(d)
    ensures Step(d, i, v).1.reordered == (v.reordered || UsesIndex(d))
  {
    ScanFlags(Fresh(v), d);
  }

  lemma {:induction false} ReorderedIff(items: seq<Item>, i: nat, v: Vars)
    requires ItemsOk(items)
    ensures FoundIn(items, i, v).1.reordered == (v.reordered || !IndexFree(items))
    decreases |items|
  {
    hide Text, FoundIn, Step, UsesIndex;
    if items == [] {
      FoundNone(i, v);
    } else if items[0].Lit? {
      FoundLit(items, i, v);
      ReorderedIff(items[1..], i + |items[0].s|, v);
    } else {
      var d := items[0].d;
      FoundStep(items, i, v);
      StepReordered(d, i, v);
      ReorderedIff(items[1..], i + |Text(d)|, Step(d, i, v).1);
    }
  }

  lemma FreeStep(d: Directive, i: nat, v: Vars, n: nat)
    requires DirectiveOk(d) && !UsesIndex(d) && Tracks(v) && !v.reordered
    ensures var a := v.argNum + Need(Dir(d)); Step(d, i, v).1 == Vars(a, a, false)
    ensures d.verb != '%' ==> (Usable(Record(d, i, v), n) <==> v.argNum + Need(Dir(d)) <= n)
  {
    hide Step, Record;
    if d.verb == '%' { StepPercent(d, i, v); } else { RecordPlain(d, i, v); }
  }

  /** In an index-free format the scan claims what the format reads; the recorded directives, what
      it reads up to the last of them. */
  lemma {:induction false} FreeScan(items: seq<Item>, i: nat, v: Vars, n: nat)
    requires ItemsOk(items) && IndexFree(items) && Tracks(v) && !v.reordered
    ensures FoundIn(items, i, v).1.maxArg == v.argNum + Needs(items)
    ensures AllUsable(FoundIn(items, i, v).0, n) <==> (HasVerb(items) ==> v.argNum + NeedsToVerb(items) <= n)
    decreases |items|
  {
    hide Text, FoundIn, Step, UsesIndex, AllUsable, Usable, Record, DirectiveOk, Tracks;
    if items == [] {
      FoundNone(i, v);
      assert v.maxArg == v.argNum by { TracksFree(v); }
      assert AllUsable([], n) by { NoneUsable(n); }
    } else if items[0].Lit? {
      FoundLit(items, i, v);
      FreeScan(items[1..], i + |items[0].s|, v, n);
    } else {
      var d := items[0].d;
      FoundFirst(items, i, v);
      FreeStep(d, i, v, n);
      TracksFree(v);
      TracksFree(Step(d, i, v).1);
      var rest := FoundIn(items[1..], i + |Text(d)|, Step(d, i, v).1);
      FreeScan(items[1..], i + |Text(d)|, Step(d, i, v).1, n);
      if d.verb != '%' { UsableCons(Record(d, i, v), rest.0, n); }
    }
  }

  lemma TracksFree(v: Vars)
    requires !v.reordered
    ensures Tracks(v) <==> 0 <= v.argNum == v.maxArg
  {
  }

  lemma NoneUsable(n: nat)
    ensures AllUsable([], n)
  {
  }

  /** Slicing off the unread operands fails exactly when the format has no index and its operands
      suffice for every directive up to the last other than %%, but not for the stars of the %%
      after it. */
  lemma PanicIff<V>(items: seq<Item>, vals: seq<V>)
    requires ItemsOk(items)
    ensures Rewrite(Render(items), vals) == Panic
      <==> IndexFree(items) && NeedsToVerb(items) <= |vals| < Needs(items)
  {
    hide FoundIn, AllUsable, Rewrite, Render, Slots, Renumber, FillAll, Unmixed, ItemsOk;
    RewriteIs(items, vals);
    ReorderedIff(items, 0, START);
    MaxGrows(items, 0, START);
    if IndexFree(items) {
      assert Tracks(START);
      FreeScan(items, 0, START, |vals|);
      NoVerbNeeds(items);
    }
  }

  lemma NoVerbNeeds(items: seq<Item>)
    ensures !HasVerb(items) ==> NeedsToVerb(items) == 0
  {
  }

  // ---- Indexes that do no harm -------------------------------------------------------------------

  /** Nothing but literals and %% without stars. */
  predicate ReadsNothing(items: seq<Item>) {
    items != [] ==> (items[0].Lit? || (items[0].d.verb == '%' && !HasStar(items[0].d))) && ReadsNothing(items[1..])
  }

  /** After a %% with an index no operand is read. */
  predicate IndexesTrail(items: seq<Item>) {
    items != [] ==>
      (items[0].Dir? && items[0].d.verb == '%' && UsesIndex(items[0].d) ==> ReadsNothing(items[1..]))
      && IndexesTrail(items[1..])
  }

  lemma PercentReads(d: Directive, n: nat, next: nat)
    requires DirectiveOk(d) && d.verb == '%' && !HasStar(d)
    ensures var r := ReadsOf(d, n, next);
      r.width.None? && r.prec.None? && r.op.NoOperand? && (!UsesIndex(d) ==> r.next == next)
  {
    hide IndexOk;
  }

  lemma {:induction false} NothingLined(items: seq<Item>, slots: seq<Arg<nat>>, next: nat, next': nat, n: nat)
    requires ItemsOk(items) && ReadsNothing(items)
    ensures Lined(items, slots, next, next', true, true, n)
    decreases |items|
  {
    hide DirectiveOk, ReadsOf, UsesIndex, HasStar, Renumbered;
    if items != [] {
      if items[0].Lit? {
        NothingLined(items[1..], slots, next, next', n);
      } else {
        var d := items[0].d;
        RenumberedIs(d);
        PercentReads(d, n, next);
        PercentReads(d, |slots|, next');
        NothingLined(items[1..], slots, ReadsOf(d, n, next).next, ReadsOf(d, |slots|, next').next, n);
      }
    }
  }

  /** Nothing is recorded where nothing is read. */
  lemma {:induction false} NothingFound(items: seq<Item>, i: nat, v: Vars, n: nat, next: nat)
    requires ItemsOk(items) && ReadsNothing(items)
    ensures FoundIn(items, i, v).0 == [] && (v.reordered ==> FoundIn(items, i, v).1.reordered)
    ensures WholeFrom(items, next, n)
    decreases |items|
  {
    hide DirectiveOk, ReadsOf, UsesIndex, HasStar, FoundIn, Step, Text;
    if items == [] {
      FoundNone(i, v);
    } else if items[0].Lit? {
      FoundLit(items, i, v);
      NothingFound(items[1..], i + |items[0].s|, v, n, next);
    } else {
      var d := items[0].d;
      FoundFirst(items, i, v);
      StepReordered(d, i, v);
      PercentReads(d, n, next);
      NothingFound(items[1..], i + |Text(d)|, Step(d, i, v).1, n, ReadsOf(d, n, next).next);
    }
  }

  /** Before the first index on a %%, the cursors agree with the scan and the rebuilt list starts
      with what is recorded next. */
  predicate InLine(items: seq<Item>, i: nat, v: Vars, slots: seq<Arg<nat>>, next': nat, n: nat)
    requires ItemsOk(items)
  {
    && Within(v, n) && next' <= |slots| && AllUsable(FoundIn(items, i, v).0, n)
    && var w := FoundIn(items, i, v).1;
       (w.reordered || 0 <= w.maxArg <= n)
       && slots[next'..] == Operands(FoundIn(items, i, v).0, Iota(n))
            + if w.reordered then [] else ShownAll(Iota(n))[w.maxArg..]
  }

  lemma InLineEnds(v: Vars, i: nat, slots: seq<Arg<nat>>, next': nat, n: nat)
    requires InLine([], i, v, slots, next', n)
    ensures Lined([], slots, v.argNum, next', v.reordered, false, n)
  {
    var all := ShownAll(Iota(n));
    assert slots[next'..] == (if v.reordered then [] else all[v.argNum..]);
    assert |slots[next'..]| == |slots| - next';
  }

  lemma InLinePercent(items: seq<Item>, i: nat, v: Vars, slots: seq<Arg<nat>>, next': nat, n: nat)
    requires ItemsOk(items) && items != [] && items[0].Dir? && DirectiveOk(items[0].d) && ItemsOk(items[1..])
    requires items[0].d.verb == '%' && !HasStar(items[0].d) && !UsesIndex(items[0].d)
    requires InLine(items, i, v, slots, next', n)
    ensures InLine(items[1..], i + |Text(items[0].d)|, v, slots, next', n)
  {
    hide Text, FoundIn, Step, UsesIndex, HasStar, AllUsable, Operands;
    FoundFirst(items, i, v);
    PercentKeeps(items[0].d, i, v, n);
  }

  /** The directive finds at the cursor of the rebuilt list what it reads, and stays in line. */
  lemma InLineVerb(items: seq<Item>, i: nat, v: Vars, slots: seq<Arg<nat>>, next': nat, n: nat)
    requires ItemsOk(items) && items != [] && items[0].Dir? && DirectiveOk(items[0].d) && ItemsOk(items[1..])
    requires items[0].d.verb != '%' && !Mixed(items[0].d) && InLine(items, i, v, slots, next', n)
    ensures var d := items[0].d;
      var v', e := Step(d, i, v).1, i + |Text(d)|;
      var a, b := ReadsOf(d, n, v.argNum), ReadsOf(Renumbered(d), |slots|, next');
      && DirectiveOk(Renumbered(d)) && SameReads(d, a, b, slots) && a.next == v'.argNum
      && v'.reordered == (v.reordered || UsesIndex(d)) && !UsesIndex(Renumbered(d))
      && InLine(items[1..], e, v', slots, b.next, n)
  {
    hide Text, FoundIn, Step, UsesIndex, HasStar, AllUsable, Operands, Record, Mixed, DirectiveOk, ReadsOf, Usable;
    hide DirOperands, Renumbered, Print1, Prerender, SameReads, ReadsFit, EventOf;
    var d := items[0].d;
    var rec, rest, all := Record(d, i, v), FoundIn(items[1..], i + |Text(d)|, Step(d, i, v).1), Iota(n);
    FoundFirst(items, i, v);
    OperandsFirst([rec] + rest.0, all);
    assert ([rec] + rest.0)[1..] == rest.0;
    var left := if rest.1.reordered then [] else ShownAll(all)[rest.1.maxArg..];
    var mine := DirOperands(rec, all);
    assert slots[next'..] == mine + (Operands(rest.0, all) + left);
    assert mine <= slots[next'..];
    StepAgrees(d, i, v, all);
    RebuiltAgrees(d, i, v, all, slots, next');
    RenumberedPlain(d);
    RenumberedIs(d);
    ManyShown(n);
    PrintReads(d, ShownAll(all), v.argNum);
    PrintReads(Renumbered(d), slots, next');
    NoStarReads(d, n, v.argNum);
    NoStarReads(Renumbered(d), |slots|, next');
    OnlySameEvent(d, ReadsOf(d, n, v.argNum), ReadsOf(Renumbered(d), |slots|, next'), slots, n);
    assert slots[next' + |mine|..] == slots[next'..][|mine|..];
  }

  lemma {:induction false} InLineLined(items: seq<Item>, i: nat, v: Vars, slots: seq<Arg<nat>>, next': nat, n: nat)
    requires ItemsOk(items) && Unmixed(items) && NoPercentStar(items) && IndexesTrail(items)
    requires InLine(items, i, v, slots, next', n)
    ensures v.argNum >= 0 && Lined(items, slots, v.argNum, next', v.reordered, false, n)
    decreases |items|
  {
    hide Text, FoundIn, Step, UsesIndex, HasStar, Record, Mixed, DirectiveOk, ReadsOf, SameReads, InLine, Renumbered;
    assert v.argNum >= 0 by { assert InLine(items, i, v, slots, next', n); InLineTracks(items, i, v, slots, next', n); }
    if items == [] {
      InLineEnds(v, i, slots, next', n);
    } else if items[0].Lit? {
      InLineLit(items, i, v, slots, next', n);
      InLineLined(items[1..], i + |items[0].s|, v, slots, next', n);
    } else {
      var d := items[0].d;
      assert DirectiveOk(d) && ItemsOk(items[1..]);
      RenumberedIs(d);
      if d.verb == '%' {
        PercentReads(d, n, v.argNum);
        PercentReads(d, |slots|, next');
        assert SameReads(d, ReadsOf(d, n, v.argNum), ReadsOf(d, |slots|, next'), slots) by {
          NoReadsSame(d, n, v.argNum, |slots|, next', slots);
        }
        if UsesIndex(d) {
          NothingLined(items[1..], slots, ReadsOf(d, n, v.argNum).next, ReadsOf(d, |slots|, next').next, n);
        } else {
          InLinePercent(items, i, v, slots, next', n);
          InLineLined(items[1..], i + |Text(d)|, v, slots, next', n);
        }
      } else {
        InLineVerb(items, i, v, slots, next', n);
        InLineLined(items[1..], i + |Text(d)|, Step(d, i, v).1, slots, ReadsOf(Renumbered(d), |slots|, next').next, n);
      }
    }
  }

  lemma NoReadsSame(d: Directive, n: nat, next: nat, n': nat, next': nat, slots: seq<Arg<nat>>)
    requires DirectiveOk(d) && d.verb == '%' && !HasStar(d)
    ensures SameReads(d, ReadsOf(d, n, next), ReadsOf(d, n', next'), slots)
  {
    hide ReadsOf, HasStar, DirectiveOk;
    PercentReads(d, n, next);
    PercentReads(d, n', next');
  }

  lemma InLineTracks(items: seq<Item>, i: nat, v: Vars, slots: seq<Arg<nat>>, next': nat, n: nat)
    requires ItemsOk(items) && InLine(items, i, v, slots, next', n)
    ensures v.argNum >= 0
  {
  }

  lemma InLineLit(items: seq<Item>, i: nat, v: Vars, slots: seq<Arg<nat>>, next': nat, n: nat)
    requires ItemsOk(items) && items != [] && items[0].Lit? && InLine(items, i, v, slots, next', n)
    ensures ItemsOk(items[1..]) && InLine(items[1..], i + |items[0].s|, v, slots, next', n)
  {
    hide FoundIn, AllUsable, Operands, Within;
    FoundLit(items, i, v);
  }

  ghost predicate UsableTells(items: seq<Item>, i: nat, v: Vars, n: nat)
    requires ItemsOk(items) && v.argNum >= 0
  {
    && (AllUsable(FoundIn(items, i, v).0, n) <==> WholeFrom(items, v.argNum, n))
    && (AllUsable(FoundIn(items, i, v).0, n) ==>
      FoundIn(items, i, v).1.reordered || 0 <= FoundIn(items, i, v).1.maxArg <= n)
  }

  /** The scan may be used exactly when every operand is there. */
  lemma {:induction false} UsableIffWhole(items: seq<Item>, i: nat, v: Vars, n: nat)
    requires ItemsOk(items) && Unmixed(items) && NoPercentStar(items) && IndexesTrail(items) && Within(v, n)
    ensures UsableTells(items, i, v, n)
    decreases |items|
  {
    hide Text, FoundIn, Step, UsesIndex, HasStar, Record, Mixed, DirectiveOk, ReadsOf, AllUsable, Usable, ReadsWhole;
    hide Whole, Print1;
    if items == [] {
      FoundNone(i, v);
      NoneUsable(n);
    } else if items[0].Lit? {
      FoundLit(items, i, v);
      UsableIffWhole(items[1..], i + |items[0].s|, v, n);
    } else {
      var d := items[0].d;
      FoundFirst(items, i, v);
      var e, v' := i + |Text(d)|, Step(d, i, v).1;
      if d.verb == '%' {
        PercentReads(d, n, v.argNum);
        assert ReadsWhole(ReadsOf(d, n, v.argNum)) by { PercentWhole(d, n, v.argNum); }
        if UsesIndex(d) {
          StepReordered(d, i, v);
          NothingFound(items[1..], e, v', n, ReadsOf(d, n, v.argNum).next);
          NoneUsable(n);
        } else {
          PercentKeeps(d, i, v, n);
          UsableIffWhole(items[1..], e, v, n);
        }
      } else {
        StepAgrees(d, i, v, Iota(n));
        ManyShown(n);
        EventWhole(d, ShownAll(Iota(n)), v.argNum);
        PrintReads(d, ShownAll(Iota(n)), v.argNum);
        UsableCons(Record(d, i, v), FoundIn(items[1..], e, v').0, n);
        if Whole(Print1(d, ShownAll(Iota(n)), v.argNum).0) { UsableIffWhole(items[1..], e, v', n); }
      }
    }
  }

  lemma PercentWhole(d: Directive, n: nat, next: nat)
    requires DirectiveOk(d) && d.verb == '%' && !HasStar(d)
    ensures ReadsWhole(ReadsOf(d, n, next))
  {
    hide ReadsOf, HasStar, DirectiveOk;
    PercentReads(d, n, next);
  }

  /** Indexes on %% do no harm where no operand is read after them. */
  lemma TrailingIndexHarmless<V>(items: seq<Item>, vals: seq<V>)
    requires ItemsOk(items) && NoPercentStar(items) && IndexesTrail(items)
    ensures Faithful(items, vals)
  {
    hide FoundIn, AllUsable, Unmixed, NoPercentStar, IndexesTrail, WholeFrom, Lined, Slots, Renumber, HasTypeVerb;
    hide Faithful, Within, InLine, ItemsOk;
    var n := |vals|;
    if Unmixed(items) {
      StartsIn(n);
      UsableIffWhole(items, 0, START, n);
      if AllUsable(Found0(items).0, n) {
        SlotsInLine(items, n);
        InLineLined(items, 0, START, Slots(items, n), 0, n);
      }
      KeepsFaithful(items, vals);
    } else {
      ScanOf(items);
      if AllUsable(Found0(items).0, n) {
        UsableIsClean(items, 0, Found0(items).0, n);
        CleanIsUnmixed(items);
      }
      KeepsFaithful(items, vals);
    }
  }

  lemma StartsIn(n: nat)
    ensures Within(START, n)
  {
  }

  lemma SlotsInLine(items: seq<Item>, n: nat)
    requires ItemsOk(items) && Rebuilds(items, n)
    ensures InLine(items, 0, START, Slots(items, n), 0, n)
  {
    hide FoundIn, AllUsable, Operands;
    var s := Slots(items, n);
    assert s[0..] == s;
    StartsIn(n);
  }

  // ---- And indexes that do ---------------------------------------------------------------------------

  predicate Bare(d: Directive) {
    !HasStar(d) && d.idx.None?
  }

  lemma IndexedReads(d: Directive, n: nat, next: nat)
    requires DirectiveOk(d) && d.verb == '%' && !HasStar(d) && d.idx.Some? && Number(d.idx.value) <= n
    ensures ReadsOf(d, n, next).next == Number(d.idx.value) - 1
  {
  }

  lemma BareReads(d: Directive, n: nat, next: nat)
    requires DirectiveOk(d) && d.verb != '%' && Bare(d) && next < n
    ensures ReadsOf(d, n, next).op == At(next)
  {
  }

  /** In line, a directive that reads implicitly right behind `%[m]%` finds the m-th operand, which
      the kept index makes it look for at the m-th place of the rebuilt list. */
  lemma {:induction false} BehindIndex(items: seq<Item>, k: nat, slots: seq<Arg<nat>>, next: nat, next': nat, r: bool,
      r': bool, n: nat)
    requires ItemsOk(items) && Lined(items, slots, next, next', r, r', n) && k + 1 < |items|
    requires items[k].Dir? && items[k].d.verb == '%' && !HasStar(items[k].d) && items[k].d.idx.Some?
    requires IndexOk(items[k].d.idx)
    requires items[k + 1].Dir? && items[k + 1].d.verb != '%' && Bare(items[k + 1].d)
    requires var m := Number(items[k].d.idx.value); m <= n && m <= |slots|
    ensures var m := Number(items[k].d.idx.value); slots[m - 1] == Rendered(items[k + 1].d.verb, m - 1)
    decreases k
  {
    hide ReadsOf, UsesIndex, Renumbered, HasStar, Number;
    if k > 0 {
      if items[0].Lit? {
        BehindIndex(items[1..], k - 1, slots, next, next', r, r', n);
      } else {
        var d := items[0].d;
        RenumberedIs(d);
        BehindIndex(items[1..], k - 1, slots, ReadsOf(d, n, next).next, ReadsOf(Renumbered(d), |slots|, next').next,
          r || UsesIndex(d), r' || UsesIndex(Renumbered(d)), n);
      }
    } else {
      var p, rest := items[0].d, items[1..];
      var d := rest[0].d;
      assert DirectiveOk(p) && DirectiveOk(d);
      RenumberedIs(p);
      IndexedReads(p, n, next);
      IndexedReads(p, |slots|, next');
      var m := Number(p.idx.value);
      RenumberedIs(d);
      RenumberedBare(d);
      BareReads(d, n, m - 1);
      BareReads(Renumbered(d), |slots|, m - 1);
      LinedDir(rest, slots, m - 1, m - 1, r || UsesIndex(p), r' || UsesIndex(Renumbered(p)), n);
    }
  }

  lemma RenumberedBare(d: Directive)
    requires Bare(d)
    ensures Bare(Renumbered(d))
  {
  }

  lemma LinedDir(items: seq<Item>, slots: seq<Arg<nat>>, next: nat, next': nat, r: bool, r': bool, n: nat)
    requires ItemsOk(items) && items != [] && items[0].Dir? && Lined(items, slots, next, next', r, r', n)
    ensures DirectiveOk(items[0].d) && DirectiveOk(Renumbered(items[0].d))
    ensures SameReads(items[0].d, ReadsOf(items[0].d, n, next), ReadsOf(Renumbered(items[0].d), |slots|, next'), slots)
  {
    hide ReadsOf, SameReads;
    RenumberedIs(items[0].d);
  }

  /** So where a rewritten format has a directive that reads implicitly right behind `%[m]%`, and
      the m-th place of the rebuilt list is not for the m-th operand, some operands are misprinted. */
  lemma ImplicitMisreads(items: seq<Item>, k: nat, n: nat) returns (vals: seq<nat>)
    requires ItemsOk(items) && Rebuilds(items, n) && WholeFrom(items, 0, n) && k + 1 < |items|
    requires items[k].Dir? && items[k].d.verb == '%' && !HasStar(items[k].d) && items[k].d.idx.Some?
    requires IndexOk(items[k].d.idx)
    requires items[k + 1].Dir? && items[k + 1].d.verb != '%' && Bare(items[k + 1].d)
    requires var m := Number(items[k].d.idx.value);
      m <= n && m <= |Slots(items, n)| && Slots(items, n)[m - 1] != Rendered(items[k + 1].d.verb, m - 1)
    ensures |vals| == n && !Faithful(items, vals)
  {
    hide Faithful, Lined, Slots, FoundIn, AllUsable, WholeFrom, Number, HasStar, ItemsOk, Unmixed, Renumber;
    vals := Iota(n);
    if Faithful(items, vals) {
      FaithfulKeeps(items, n);
      BehindIndex(items, k, Slots(items, n), 0, 0, false, false, n);
    }
  }

  // `%d%d%[2]%%d`
  const LUCKY := [Dir(DECIMAL), Dir(DECIMAL), Dir(INDEXED), Dir(DECIMAL)]

  lemma LuckyOk()
    ensures ItemsOk(LUCKY) && LUCKY[1..] == [Dir(DECIMAL), Dir(INDEXED), Dir(DECIMAL)] && ItemsOk(LUCKY[1..])
    ensures LUCKY[1..][1..] == [Dir(INDEXED), Dir(DECIMAL)] && ItemsOk(LUCKY[1..][1..])
    ensures LUCKY[1..][1..][1..] == [Dir(DECIMAL)] && ItemsOk(LUCKY[1..][1..][1..]) && LUCKY[1..][1..][1..][1..] == []
    ensures ItemsOk(LUCKY[1..][1..][1..][1..])
  {
    NumberTwo();
    assert DirectiveOk(INDEXED) && DirectiveOk(DECIMAL) by { IndexedSteps(); }
    hide DirectiveOk;
    assert LUCKY[1..][1..][1..][1..] == [];
    OkDir(LUCKY[1..][1..][1..]);
    OkDir(LUCKY[1..][1..]);
    OkDir(LUCKY[1..]);
    OkDir(LUCKY);
  }

  function Decimal(at: nat, pos: nat): Found { Found(at, at + 2, pos, 'd', [], false) }

  lemma DecimalStep(i: nat, a: nat, r: bool)
    ensures |Text(DECIMAL)| == 2 && DirectiveOk(DECIMAL)
    ensures Step(DECIMAL, i, Vars(a, a, r)) == ([Decimal(i, a)], Vars(a + 1, a + 1, r))
  {
  }

  lemma LuckyFound()
    ensures ItemsOk(LUCKY) && Found0(LUCKY) == ([Decimal(0, 0), Decimal(2, 1), Decimal(9, 2)], Vars(3, 3, true))
  {
    hide FoundIn, Step, Text, DirectiveOk, ItemsOk;
    LuckyOk();
    var t1, t2, t3 := LUCKY[1..], LUCKY[1..][1..], LUCKY[1..][1..][1..];
    IndexedSteps();
    IndexedAt(4);
    DecimalStep(0, 0, false);
    DecimalStep(2, 1, false);
    DecimalStep(9, 2, true);
    FoundStep(LUCKY, 0, START);
    FoundStep(t1, 2, Vars(1, 1, false));
    FoundStep(t2, 4, Vars(2, 2, false));
    FoundStep(t3, 9, Vars(2, 2, true));
    FoundNone(11, Vars(3, 3, true));
    assert FoundIn(t3, 9, Vars(2, 2, true)).0 == [Decimal(9, 2)];
    assert FoundIn(t2, 4, Vars(2, 2, false)).0 == [Decimal(9, 2)];
    assert FoundIn(t1, 2, Vars(1, 1, false)).0 == [Decimal(2, 1), Decimal(9, 2)];
    assert FoundIn(LUCKY, 0, START).0 == [Decimal(0, 0), Decimal(2, 1), Decimal(9, 2)];
  }

  lemma IndexedAt(i: nat)
    ensures Step(INDEXED, i, Vars(2, 2, false)) == ([], Vars(2, 2, true))
  {
    NumberTwo();
  }

  lemma LuckySlots()
    ensures ItemsOk(LUCKY) && AllUsable(Found0(LUCKY).0, 3) && Rebuilds(LUCKY, 3)
    ensures Slots(LUCKY, 3) == [Shown(0), Shown(1), Shown(2)]
  {
    hide FoundIn, ItemsOk, Operands;
    LuckyFound();
    var a, b, c := Decimal(0, 0), Decimal(2, 1), Decimal(9, 2);
    var all := Iota(3);
    assert AllUsable([a, b, c], 3);
    OperandsFirst([a, b, c], all);
    OperandsFirst([b, c], all);
    OperandsFirst([c], all);
    assert [a, b, c][1..] == [b, c] && [b, c][1..] == [c] && [c][1..] == [];
    assert Operands([], all) == [] by { NoOperands(all); }
    assert DirOperands(a, all) == [Shown(0)] && DirOperands(b, all) == [Shown(1)] && DirOperands(c, all) == [Shown(2)];
  }

  lemma NoOperands<V>(vals: seq<V>)
    ensures Operands([], vals) == []
  {
  }

  lemma DecimalReads(next: nat)
    requires next < 3
    ensures DirectiveOk(DECIMAL) && Renumbered(DECIMAL) == DECIMAL && !UsesIndex(DECIMAL)
    ensures ReadsOf(DECIMAL, 3, next) == Reads(None, None, At(next), next + 1)
  {
  }

  lemma IndexedPercentReads(next: nat)
    ensures DirectiveOk(INDEXED) && Renumbered(INDEXED) == INDEXED && UsesIndex(INDEXED)
    ensures ReadsOf(INDEXED, 3, next) == Reads(None, None, NoOperand, 1)
  {
    NumberTwo();
  }

  lemma LuckyLined(slots: seq<Arg<nat>>)
    requires slots == [Shown(0), Shown(1), Shown(2)]
    ensures ItemsOk(LUCKY) && Lined(LUCKY, slots, 0, 0, false, false, 3) && WholeFrom(LUCKY, 0, 3)
  {
    hide ReadsOf, Renumbered, UsesIndex, DirectiveOk, ItemsOk, Lined, WholeFrom;
    LuckyOk();
    var t1, t2, t3 := LUCKY[1..], LUCKY[1..][1..], LUCKY[1..][1..][1..];
    DecimalReads(0);
    DecimalReads(1);
    IndexedPercentReads(2);
    assert Lined(t3[1..], slots, 2, 2, true, true, 3) && WholeFrom(t3[1..], 2, 3) by { LinedNone(slots, 2, 3); }
    LinedOne(t3, slots, 1, true, 3);
    LinedOne(t2, slots, 2, false, 3);
    LinedOne(t1, slots, 1, false, 3);
    LinedOne(LUCKY, slots, 0, false, 3);
  }

  lemma LinedNone(slots: seq<Arg<nat>>, next: nat, n: nat)
    ensures Lined([], slots, next, next, true, true, n) && WholeFrom([], next, n)
  {
  }

  lemma LinedOne(items: seq<Item>, slots: seq<Arg<nat>>, next: nat, r: bool, n: nat)
    requires ItemsOk(items) && items != [] && items[0].Dir? && DirectiveOk(items[0].d) && ItemsOk(items[1..])
    requires |slots| == n
    requires var d := items[0].d;
      var a := ReadsOf(d, n, next);
      && Renumbered(d) == d && a.width.None? && a.prec.None? && !a.op.Bad? && !a.op.Short?
      && (a.op.At? ==> a.op.i < n && slots[a.op.i] == Rendered(d.verb, a.op.i))
      && Lined(items[1..], slots, a.next, a.next, r || UsesIndex(d), r || UsesIndex(d), n)
        && WholeFrom(items[1..], a.next, n)
    ensures Lined(items, slots, next, next, r, r, n) && WholeFrom(items, next, n)
  {
    hide ReadsOf, Renumbered, UsesIndex, DirectiveOk;
  }

  /** `%d%d%[2]%%d` over three operands: the directive behind the index reads implicitly and is
      read right, since the second place of the rebuilt list is for the second operand. */
  lemma LuckyIndex<V>(vals: seq<V>)
    requires |vals| == 3
    ensures ItemsOk(LUCKY) && Rebuilds(LUCKY, 3) && Faithful(LUCKY, vals)
  {
    hide FoundIn, AllUsable, Lined, Slots, Rebuilds, WholeFrom, Renumber, HasTypeVerb, Faithful, ItemsOk, Unmixed, Text;
    LuckySlots();
    LuckyLined(Slots(LUCKY, 3));
    KeepsFaithful(LUCKY, vals);
  }
}
