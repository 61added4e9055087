/** The directive rewriting preserves what a format prints. */
module TypeVerbsLaw {
  import opened Basics
  import opened Format
  import opened Printf
  import opened TypeVerbs

  // ---- The scanner on well-formed text ----------------------------------------------------

  function OnIndex(st: St, idx: Option<string>): St
    requires IndexOk(idx)
  {
    if idx.None? then st
    else st.(pos := Number(idx.value) - 1, v := Vars(Number(idx.value), st.v.maxArg, true), indexed := true)
  }

  function OnSize(st: St, s: Size): St
    requires s.Star? ==> IndexOk(s.idx)
  {
    if s.Star? then AfterStar(OnIndex(st, s.idx)) else st
  }

  function OnPrec(st: St, p: Option<Size>): St
    requires p.Some? && p.value.Star? ==> IndexOk(p.value.idx)
  {
    if p.Some? then OnSize(st, p.value) else st
  }

  function OnDirective(st: St, d: Directive): St
    requires DirectiveOk(d)
  {
    OnIndex(OnPrec(OnSize(st, d.width), d.prec), d.idx)
  }

  /** `t` stands in `s` at `i`. */
  predicate Stands(s: string, i: nat, t: string) {
    i + |t| <= |s| && s[i..i + |t|] == t
  }

  lemma StandsParts(s: string, i: nat, a: string, b: string)
    requires Stands(s, i, a + b)
    ensures Stands(s, i, a) && Stands(s, i + |a|, b)
  {
    assert s[i..i + |a|] == (a + b)[..|a|] == a;
    assert s[i + |a|..i + |a| + |b|] == (a + b)[|a|..] == b;
  }

  lemma {:induction false} ScanSkipped(spec: string, i: nat, st: St, t: string)
    requires Stands(spec, i, t) && forall k :: 0 <= k < |t| ==> IsSkipped(t[k])
    ensures ScanTail(spec, i, st) == ScanTail(spec, i + |t|, st)
    decreases |t|
  {
    if t != "" {
      assert t == [t[0]] + t[1..];
      StandsParts(spec, i, [t[0]], t[1..]);
      assert spec[i] == spec[i..i + |t|][0] == t[0];
      ScanSkipped(spec, i + 1, st, t[1..]);
    }
  }

  lemma AtoiDigits(ds: string)
    requires IndexOk(Some(ds))
    ensures Atoi(ds) == Some(Number(ds))
  {
    assert IsDigit(ds[0]);
  }

  lemma {:induction false} FindFirst(s: string, c: char, i: nat, j: nat)
    requires i <= j <= |s| && (j < |s| ==> s[j] == c) && forall k :: i <= k < j ==> s[k] != c
    ensures Find(s, c, i) == j
    decreases j - i
  {
    if i < j {
      FindFirst(s, c, i + 1, j);
    }
  }

  /** The bracket an index opens is closed right after its digits. */
  lemma IndexCloses(spec: string, i: nat, ds: string)
    requires Digits(ds) && Stands(spec, i, "[" + ds + "]")
    ensures spec[i] == '[' && Find(spec, ']', i + 1) == i + 1 + |ds| && spec[i + 1..i + 1 + |ds|] == ds
  {
    StandsParts(spec, i, "[" + ds, "]");
    StandsParts(spec, i, "[", ds);
    assert spec[i] == spec[i..i + 1][0];
    var e := i + 1 + |ds|;
    assert spec[e] == spec[e..e + 1][0];
    assert forall k :: i + 1 <= k < e ==> spec[k] == spec[i + 1..e][k - i - 1] == ds[k - i - 1];
    FindFirst(spec, ']', i + 1, e);
  }

  lemma ScanIndex(spec: string, i: nat, st: St, idx: Option<string>)
    requires IndexOk(idx) && Stands(spec, i, IndexText(idx))
    ensures ScanTail(spec, i, st) == ScanTail(spec, i + |IndexText(idx)|, OnIndex(st, idx))
  {
    if idx.Some? {
      IndexCloses(spec, i, idx.value);
      AtoiDigits(idx.value);
    }
  }

  lemma ScanStar(spec: string, i: nat, st: St, idx: Option<string>)
    requires Stands(spec, i, IndexText(idx) + "*") && IndexOk(idx)
    ensures ScanTail(spec, i, st) == ScanTail(spec, i + |IndexText(idx)| + 1, AfterStar(OnIndex(st, idx)))
  {
    hide OnIndex, AfterStar, IndexOk, IndexText;
    StandsParts(spec, i, IndexText(idx), "*");
    ScanIndex(spec, i, st, idx);
    var k := i + |IndexText(idx)|;
    assert spec[k] == spec[k..k + 1][0] == '*';
    StarStep(spec, k, OnIndex(st, idx));
  }

  lemma StarStep(spec: string, k: nat, st: St)
    requires k < |spec| && spec[k] == '*'
    ensures ScanTail(spec, k, st) == ScanTail(spec, k + 1, AfterStar(st))
  {
    hide AfterStar;
  }

  lemma ScanSize(spec: string, i: nat, st: St, s: Size)
    requires Stands(spec, i, SizeText(s)) && (s.Star? ==> IndexOk(s.idx)) && (s.Fixed? ==> Digits(s.ds))
    ensures ScanTail(spec, i, st) == ScanTail(spec, i + |SizeText(s)|, OnSize(st, s))
  {
    hide ScanTail, OnIndex, AfterStar, IndexOk, Stands;
    match s
    case NoSize =>
    case Fixed(ds) => ScanSkipped(spec, i, st, ds);
    case Star(idx) => ScanStar(spec, i, st, idx);
  }

  lemma ScanDirective(spec: string, i: nat, st: St, d: Directive)
    requires DirectiveOk(d) && Stands(spec, i, Tail(d) + [d.verb])
    ensures ScanTail(spec, i, st) == (OnDirective(st, d), i + |Tail(d)|) && spec[i + |Tail(d)|] == d.verb
  {
    var e := i + |Tail(d)|;
    StandsParts(spec, i, Tail(d), [d.verb]);
    assert spec[e] == spec[e..e + 1][0] == d.verb;
    ScanParts(spec, i, st, d);
    assert ScanTail(spec, e, OnDirective(st, d)) == (OnDirective(st, d), e);
  }

  lemma ScanPrec(spec: string, i: nat, st: St, p: Option<Size>)
    requires Stands(spec, i, PrecText(p)) && (p.Some? && p.value.Star? ==> IndexOk(p.value.idx))
    requires (p.Some? && p.value.Fixed? ==> Digits(p.value.ds))
    ensures ScanTail(spec, i, st) == ScanTail(spec, i + |PrecText(p)|, OnPrec(st, p))
  {
    if p.Some? {
      StandsParts(spec, i, ".", SizeText(p.value));
      ScanSkipped(spec, i, st, ".");
      ScanSize(spec, i + 1, st, p.value);
    }
  }

  predicate SizeOk(s: Size) {
    (s.Star? ==> IndexOk(s.idx)) && (s.Fixed? ==> Digits(s.ds))
  }

  lemma ScanPrecIndex(spec: string, i: nat, st: St, p: Option<Size>, idx: Option<string>)
    requires Stands(spec, i, PrecText(p) + IndexText(idx)) && (p.Some? ==> SizeOk(p.value)) && IndexOk(idx)
    ensures ScanTail(spec, i, st) == ScanTail(spec, i + |PrecText(p) + IndexText(idx)|, OnIndex(OnPrec(st, p), idx))
  {
    hide ScanTail, OnPrec, OnIndex, PrecText, IndexText;
    StandsParts(spec, i, PrecText(p), IndexText(idx));
    ScanPrec(spec, i, st, p);
    ScanIndex(spec, i + |PrecText(p)|, OnPrec(st, p), idx);
  }

  lemma ScanSizes(spec: string, i: nat, st: St, w: Size, p: Option<Size>, idx: Option<string>)
    requires Stands(spec, i, SizeText(w) + (PrecText(p) + IndexText(idx))) && SizeOk(w)
    requires (p.Some? ==> SizeOk(p.value)) && IndexOk(idx)
    ensures ScanTail(spec, i, st)
         == ScanTail(spec, i + |SizeText(w) + (PrecText(p) + IndexText(idx))|, OnIndex(OnPrec(OnSize(st, w), p), idx))
  {
    hide ScanTail, OnSize, OnPrec, OnIndex, IndexOk, SizeText, PrecText, IndexText;
    StandsParts(spec, i, SizeText(w), PrecText(p) + IndexText(idx));
    ScanSize(spec, i, st, w);
    ScanPrecIndex(spec, i + |SizeText(w)|, OnSize(st, w), p, idx);
  }

  lemma ScanParts(spec: string, i: nat, st: St, d: Directive)
    requires DirectiveOk(d) && Stands(spec, i, Tail(d))
    ensures ScanTail(spec, i, st) == ScanTail(spec, i + |Tail(d)|, OnDirective(st, d))
  {
    hide ScanTail, OnSize, OnPrec, OnIndex, IndexOk, SizeText, PrecText, IndexText;
    var sizes := SizeText(d.width) + (PrecText(d.prec) + IndexText(d.idx));
    StandsParts(spec, i, d.flags, sizes);
    ScanSkipped(spec, i, st, d.flags);
    ScanSizes(spec, i + |d.flags|, st, d.width, d.prec, d.idx);
  }

  // ---- What the scanner finds in well-formed items -------------------------------------------

  /** One directive: what is recorded for it, and the variables after it. */
  function Step(d: Directive, i: nat, v: Vars): (seq<Found>, Vars)
    requires DirectiveOk(d)
  {
    Close(OnDirective(Fresh(v), d), i, i + |Text(d)|, d.verb)
  }

  function FoundIn(items: seq<Item>, i: nat, v: Vars): (seq<Found>, Vars)
    requires ItemsOk(items)
    decreases |items|
  {
    if items == [] then ([], v)
    else
      match items[0]
      case Lit(s) => FoundIn(items[1..], i + |s|, v)
      case Dir(d) => Prepend(Step(d, i, v).0, FoundIn(items[1..], i + |Text(d)|, Step(d, i, v).1))
  }

  lemma SkipLit(spec: string, i: nat, s: string, v: Vars)
    requires Stands(spec, i, s) && '%' !in s
    ensures ScanAll(spec, i, v) == ScanAll(spec, i + |s|, v)
  {
    assert forall k :: i <= k < i + |s| ==> spec[k] == spec[i..i + |s|][k - i] == s[k - i];
    FindAfter(spec, '%', i, i + |s|);
  }

  lemma {:induction false} FindAfter(s: string, c: char, i: nat, j: nat)
    requires i <= j <= |s| && forall k :: i <= k < j ==> s[k] != c
    ensures Find(s, c, i) == Find(s, c, j)
    decreases j - i
  {
    if i < j {
      FindAfter(s, c, i + 1, j);
    }
  }

  lemma Front(s: string, i: nat, t: string, rest: string)
    requires i <= |s| && s[i..] == t + rest
    ensures Stands(s, i, t) && s[i + |t|..] == rest
  {
    assert s[i..i + |t|] == s[i..][..|t|];
    assert s[i + |t|..] == s[i..][|t|..];
  }

  lemma ScanStep(spec: string, i: nat, d: Directive, v: Vars)
    requires DirectiveOk(d) && Stands(spec, i, Text(d))
    ensures ScanAll(spec, i, v) == Prepend(Step(d, i, v).0, ScanAll(spec, i + |Text(d)|, Step(d, i, v).1))
  {
    hide OnDirective, Tail;
    StandsParts(spec, i, "%", Tail(d) + [d.verb]);
    assert spec[i] == spec[i..i + 1][0] == '%';
    assert Find(spec, '%', i) == i;
    ScanDirective(spec, i + 1, Fresh(v), d);
    assert |Text(d)| == |Tail(d)| + 2;
  }

  /** The items stand one after the other in `spec`, from `i` to its end. */
  predicate Laid(spec: string, i: nat, items: seq<Item>)
    decreases |items|
  {
    if items == [] then i == |spec|
    else Stands(spec, i, ItemText(items[0])) && Laid(spec, i + |ItemText(items[0])|, items[1..])
  }

  lemma {:induction false} RenderLaid(spec: string, i: nat, items: seq<Item>)
    requires i <= |spec| && spec[i..] == Render(items)
    ensures Laid(spec, i, items)
    decreases |items|
  {
    hide ItemText;
    if items != [] {
      Front(spec, i, ItemText(items[0]), Render(items[1..]));
      RenderLaid(spec, i + |ItemText(items[0])|, items[1..]);
    }
  }

  lemma LaidFirst(spec: string, i: nat, items: seq<Item>)
    requires items != [] && Laid(spec, i, items)
    ensures Stands(spec, i, ItemText(items[0])) && Laid(spec, i + |ItemText(items[0])|, items[1..])
  {
  }

  lemma FoundStep(items: seq<Item>, i: nat, v: Vars)
    requires ItemsOk(items) && items != [] && items[0].Dir?
    ensures DirectiveOk(items[0].d) && ItemsOk(items[1..])
    ensures FoundIn(items, i, v)
         == Prepend(Step(items[0].d, i, v).0, FoundIn(items[1..], i + |Text(items[0].d)|, Step(items[0].d, i, v).1))
  {
    hide Step, Text, Prepend, DirectiveOk;
  }

  /** Both scans take the same step over a directive. */
  lemma SameStep(spec: string, i: nat, items: seq<Item>, v: Vars) returns (e: nat, fs: seq<Found>, v': Vars)
    requires ItemsOk(items) && items != [] && items[0].Dir? && Laid(spec, i, items)
    ensures i < e <= |spec| && ItemsOk(items[1..]) && Laid(spec, e, items[1..])
    ensures ScanAll(spec, i, v) == Prepend(fs, ScanAll(spec, e, v'))
    ensures FoundIn(items, i, v) == Prepend(fs, FoundIn(items[1..], e, v'))
  {
    hide Step, FoundIn, Prepend, ScanAll, DirectiveOk, ItemsOk, Laid, Tail;
    var d := items[0].d;
    e := i + |Text(d)|;
    FoundStep(items, i, v);
    LaidFirst(spec, i, items);
    fs, v' := Step(d, i, v).0, Step(d, i, v).1;
    ScanStep(spec, i, d, v);
  }

  lemma FoundNone(i: nat, v: Vars)
    ensures FoundIn([], i, v) == ([], v)
  {
  }

  lemma FoundLit(items: seq<Item>, i: nat, v: Vars)
    requires ItemsOk(items) && items != [] && items[0].Lit?
    ensures FoundIn(items, i, v) == FoundIn(items[1..], i + |items[0].s|, v)
    ensures ItemsOk(items[1..]) && '%' !in items[0].s
  {
  }

  lemma LaidNone(spec: string, i: nat, v: Vars)
    requires Laid(spec, i, [])
    ensures ScanAll(spec, i, v) == ([], v)
  {
  }

  lemma {:induction false} ScanItems(spec: string, i: nat, items: seq<Item>, v: Vars)
    requires ItemsOk(items) && i <= |spec| && Laid(spec, i, items)
    ensures ScanAll(spec, i, v) == FoundIn(items, i, v)
    decreases |items|
  {
    hide Step, Text, FoundIn, ScanAll, ItemsOk, Laid, Stands;
    if items == [] {
      LaidNone(spec, i, v);
      FoundNone(i, v);
    } else if items[0].Lit? {
      var s := items[0].s;
      FoundLit(items, i, v);
      LaidFirst(spec, i, items);
      assert i + |s| <= |spec| by { StandsFits(spec, i, s); }
      SkipLit(spec, i, s, v);
      ScanItems(spec, i + |s|, items[1..], v);
    } else {
      var e, fs, v' := SameStep(spec, i, items, v);
      ScanItems(spec, e, items[1..], v');
    }
  }

  lemma StandsFits(s: string, i: nat, t: string)
    requires Stands(s, i, t)
    ensures i + |t| <= |s|
  {
  }

  // ---- The rebuilt string ----------------------------------------------------------------------

  predicate HasStar(d: Directive) {
    d.width.Star? || (d.prec.Some? && d.prec.value.Star?)
  }

  predicate Mixed(d: Directive) {
    HasStar(d) && UsesIndex(d)
  }

  lemma ScanFlags(st: St, d: Directive)
    requires DirectiveOk(d) && !st.star && !st.indexed
    ensures OnDirective(st, d).star == HasStar(d) && OnDirective(st, d).indexed == UsesIndex(d)
    ensures OnDirective(st, d).v.reordered == (st.v.reordered || UsesIndex(d))
  {
  }

  function Renumbered(d: Directive): Directive {
    if d.verb == '%' then d else Directive(d.flags, d.width, d.prec, None, NewVerb(d.verb))
  }

  function NewItem(t: Item): Item {
    match t case Lit(s) => Lit(s) case Dir(d) => Dir(Renumbered(d))
  }

  function Renumber(items: seq<Item>): seq<Item> {
    if items == [] then [] else [NewItem(items[0])] + Renumber(items[1..])
  }

  lemma {:induction false} RenumberOk(items: seq<Item>)
    requires ItemsOk(items)
    ensures ItemsOk(Renumber(items))
    decreases |items|
  {
    if items != [] {
      RenumberOk(items[1..]);
      var r := Renumber(items);
      assert r[1..] == Renumber(items[1..]);
      if |items| > 1 { assert r[1] == NewItem(items[1..][0]) == NewItem(items[1]); }
    }
  }

  lemma {:induction false} StripRun(t: string, k: nat, n: nat)
    requires k + n <= |t| && '[' !in t[k..k + n]
    ensures Strip(t, k) == t[k..k + n] + Strip(t, k + n)
    decreases n
  {
    if n > 0 {
      assert t[k] == t[k..k + n][0] && t[k] in t[k..k + n];
      assert t[k..k + n] == [t[k]] + t[k + 1..k + n];
      StripRun(t, k + 1, n - 1);
    }
  }

  lemma NoBracket(d: Directive)
    requires DirectiveOk(d) && !Mixed(d)
    ensures '[' !in d.flags + (SizeText(d.width) + PrecText(d.prec))
  {
    assert '[' !in d.flags;
    assert '[' !in SizeText(d.width);
    assert '[' !in PrecText(d.prec);
  }

  lemma StripIndexed(head: string, idx: Option<string>)
    requires '[' !in head && IndexOk(idx)
    ensures Strip(head + IndexText(idx), 0) == head
  {
    hide Strip, IndexText;
    var t := head + IndexText(idx);
    assert t[0..|head|] == head;
    StripRun(t, 0, |head|);
    StripIndex(t, |head|, idx);
    assert head + "" == head;
  }

  lemma StripIndex(t: string, k: nat, idx: Option<string>)
    requires k <= |t| && t[k..] == IndexText(idx) && IndexOk(idx)
    ensures Strip(t, k) == ""
  {
    hide Number;
    if idx.Some? {
      assert t[k..k + |IndexText(idx)|] == IndexText(idx) && t[k] == IndexText(idx)[0];
      IndexCloses(t, k, idx.value);
    }
  }

  lemma TailParts(d: Directive)
    ensures Tail(d) == d.flags + (SizeText(d.width) + PrecText(d.prec)) + IndexText(d.idx)
  {
    hide SizeText, PrecText, IndexText;
  }

  lemma StripTail(d: Directive)
    requires DirectiveOk(d) && !Mixed(d)
    ensures Strip(Tail(d), 0) == Tail(Directive(d.flags, d.width, d.prec, None, d.verb))
  {
    hide Strip, Tail, SizeText, PrecText, Mixed;
    var head := d.flags + (SizeText(d.width) + PrecText(d.prec));
    NoBracket(d);
    TailParts(d);
    StripIndexed(head, d.idx);
    TailParts(Directive(d.flags, d.width, d.prec, None, d.verb));
    assert head + "" == head;
  }

  predicate AllClean(items: seq<Item>)
    decreases |items|
  {
    items != [] ==>
      && (items[0].Dir? && items[0].d.verb != '%' ==> DirectiveOk(items[0].d) && !Mixed(items[0].d))
      && AllClean(items[1..])
  }

  /** The span and the verb of a directive that stands at `i`. */
  predicate IsFound(d: Directive, i: nat, f: Found) {
    f.start == i && f.end == i + |Text(d)| && f.verb == d.verb && f.starIdx == Mixed(d)
  }

  lemma StepFound(d: Directive, i: nat, v: Vars)
    requires DirectiveOk(d)
    ensures var fs := Step(d, i, v).0;
      if d.verb == '%' then fs == []
      else |fs| == 1 && IsFound(d, i, fs[0])
  {
    ScanFlags(Fresh(v), d);
  }

  /** The recorded spans and verbs are those of the directives that are not %%. */
  predicate Matches(items: seq<Item>, i: nat, fs: seq<Found>)
    decreases |items|
  {
    if items == [] then fs == []
    else
      match items[0]
      case Lit(s) => Matches(items[1..], i + |s|, fs)
      case Dir(d) =>
        if d.verb == '%' then Matches(items[1..], i + |Text(d)|, fs)
        else fs != [] && IsFound(d, i, fs[0]) && Matches(items[1..], i + |Text(d)|, fs[1..])
  }

  lemma {:induction false} FoundMatches(items: seq<Item>, i: nat, v: Vars)
    requires ItemsOk(items)
    ensures Matches(items, i, FoundIn(items, i, v).0)
    decreases |items|
  {
    if items != [] {
      match items[0]
      case Lit(s) => FoundMatches(items[1..], i + |s|, v);
      case Dir(d) =>
        var (fs, v') := Step(d, i, v);
        var rest := FoundIn(items[1..], i + |Text(d)|, v').0;
        StepFound(d, i, v);
        FoundMatches(items[1..], i + |Text(d)|, v');
        assert fs == [] ==> fs + rest == rest;
        assert fs != [] ==> (fs + rest)[1..] == rest;
    }
  }

  lemma {:induction false} UsableIsClean(items: seq<Item>, i: nat, fs: seq<Found>, n: nat)
    requires ItemsOk(items) && Matches(items, i, fs) && AllUsable(fs, n)
    ensures AllClean(items)
    decreases |items|
  {
    if items != [] {
      match items[0]
      case Lit(s) => UsableIsClean(items[1..], i + |s|, fs, n);
      case Dir(d) =>
        if d.verb == '%' {
          UsableIsClean(items[1..], i + |Text(d)|, fs, n);
        } else {
          assert Usable(fs[0], n);
          assert forall k :: 0 <= k < |fs[1..]| ==> fs[1..][k] == fs[k + 1];
          UsableIsClean(items[1..], i + |Text(d)|, fs[1..], n);
        }
    }
  }

  lemma RenderRenumber(items: seq<Item>)
    requires items != []
    ensures Render(Renumber(items)) == ItemText(NewItem(items[0])) + Render(Renumber(items[1..]))
  {
    assert Renumber(items)[1..] == Renumber(items[1..]);
  }

  /** What is built from `prev` on is the text up to `i` and the renumbered items. */
  predicate Built(spec: string, prev: nat, i: nat, items: seq<Item>, fs: seq<Found>) {
    prev <= i <= |spec| && Spans(fs, prev, |spec|) && Build(spec, prev, fs) == spec[prev..i] + Render(Renumber(items))
  }

  lemma {:induction false} BuildItems(spec: string, prev: nat, i: nat, items: seq<Item>, fs: seq<Found>)
    requires AllClean(items) && prev <= i <= |spec| && Laid(spec, i, items) && Matches(items, i, fs)
    ensures Built(spec, prev, i, items, fs)
    decreases |items|
  {
    hide Text, Built;
    if items == [] {
      BuildNothing(spec, prev, i, fs);
    } else {
      var e := i + |ItemText(items[0])|;
      if items[0].Lit? || items[0].d.verb == '%' {
        BuildItems(spec, prev, e, items[1..], fs);
        BuildRaw(spec, prev, i, items, fs);
      } else {
        BuildItems(spec, e, e, items[1..], fs[1..]);
        BuildFound(spec, prev, i, items, fs);
      }
    }
  }

  lemma BuildNothing(spec: string, prev: nat, i: nat, fs: seq<Found>)
    requires prev <= i == |spec| && fs == []
    ensures Built(spec, prev, i, [], fs)
  {
    assert spec[prev..] == spec[prev..i] + spec[i..];
  }

  lemma BuildRaw(spec: string, prev: nat, i: nat, items: seq<Item>, fs: seq<Found>)
    requires items != [] && (items[0].Lit? || items[0].d.verb == '%') && prev <= i <= |spec|
    requires Stands(spec, i, ItemText(items[0])) && Built(spec, prev, i + |ItemText(items[0])|, items[1..], fs)
    ensures Built(spec, prev, i, items, fs)
  {
    hide Text;
    RenderRenumber(items);
    KeepsRaw(spec, prev, i, ItemText(items[0]), Render(Renumber(items[1..])));
  }

  lemma BuildFound(spec: string, prev: nat, i: nat, items: seq<Item>, fs: seq<Found>)
    requires items != [] && items[0].Dir? && items[0].d.verb != '%' && DirectiveOk(items[0].d) && !Mixed(items[0].d)
    requires prev <= i && Stands(spec, i, Text(items[0].d)) && fs != []
    requires var e := i + |Text(items[0].d)|;
      fs[0].start == i && fs[0].end == e && fs[0].verb == items[0].d.verb && Built(spec, e, e, items[1..], fs[1..])
    ensures Built(spec, prev, i, items, fs)
  {
    hide Text, DirectiveOk, Mixed;
    var e, more := i + |Text(items[0].d)|, Render(Renumber(items[1..]));
    assert spec[e..e] + more == more;
    RenderRenumber(items);
    BuildDirective(spec, prev, i, items[0].d, fs, more);
  }

  /** Text that is not rewritten is copied. */
  lemma KeepsRaw(spec: string, prev: nat, i: nat, t: string, more: string)
    requires prev <= i && Stands(spec, i, t)
    ensures spec[prev..i + |t|] + more == spec[prev..i] + (t + more)
  {
    assert spec[prev..i + |t|] == spec[prev..i] + spec[i..i + |t|];
  }

  lemma BuildDirective(spec: string, prev: nat, i: nat, d: Directive, fs: seq<Found>, more: string)
    requires DirectiveOk(d) && !Mixed(d) && d.verb != '%' && prev <= i && Stands(spec, i, Text(d)) && fs != []
    requires fs[0].start == i && fs[0].end == i + |Text(d)| && fs[0].verb == d.verb
    requires Spans(fs[1..], fs[0].end, |spec|) && Build(spec, fs[0].end, fs[1..]) == more
    ensures Spans(fs, prev, |spec|)
    ensures Build(spec, prev, fs) == spec[prev..i] + (Text(Renumbered(d)) + more)
  {
    hide Strip, Mixed, DirectiveOk, Tail;
    TailStands(spec, i, d);
    StripTail(d);
    TailIgnoresVerb(d);
    var r := Renumbered(d);
    Regroup(spec[prev..i], Tail(r), [r.verb], more);
  }

  lemma TailIgnoresVerb(d: Directive)
    ensures Tail(Directive(d.flags, d.width, d.prec, None, d.verb))
      == Tail(Directive(d.flags, d.width, d.prec, None, NewVerb(d.verb)))
  {
  }

  lemma TailStands(spec: string, i: nat, d: Directive)
    requires Stands(spec, i, Text(d))
    ensures spec[i + 1..i + |Text(d)| - 1] == Tail(d)
  {
    StandsParts(spec, i, "%", Tail(d) + [d.verb]);
    StandsParts(spec, i + 1, Tail(d), [d.verb]);
  }

  lemma Regroup(a: string, t: string, v: string, more: string)
    ensures a + "%" + t + v + more == a + ("%" + (t + v) + more)
  {
  }
}
