/** rewriteWrapVerbs: %w becomes %v, and the operand of every %w is recorded; on a
    well-formed format both follow its directives. */
module WrapVerbs {
  import opened Basics
  import opened Format
  import opened TypeVerbs
  import opened TypeVerbsLaw

  // ---- The scanner -----------------------------------------------------------------------

  /** Where the run of characters that pass the test ends. */
  function Skip(spec: string, i: nat, test: char -> bool): (j: nat)
    ensures i <= j && (j < |spec| ==> !test(spec[j]))
    decreases |spec| - i
  {
    if i < |spec| && test(spec[i]) then Skip(spec, i + 1, test) else i
  }

  /** An explicit `[n]` at `i` moves the cursor. */
  function WrapIndex(spec: string, i: nat, a: int): (r: (nat, int))
    ensures r.0 >= i
  {
    if i < |spec| && spec[i] == '[' then
      var k := Find(spec, ']', i);
      var n := if k < |spec| && k - i > 1 then Atoi(spec[i + 1..k]) else None;
      if n.Some? && n.value >= 1 then (k + 1, n.value - 1) else (i, a)
    else (i, a)
  }

  function WrapSize(spec: string, i: nat, a: int): (r: (nat, int))
    ensures r.0 >= i
  {
    var (j, b) := WrapIndex(spec, i, a);
    if j < |spec| && spec[j] == '*' then (j + 1, b + 1) else (Skip(spec, j, IsDigit), b)
  }

  /** What follows the width: a precision and the verb's own index. */
  function WrapRest(spec: string, i: nat, a: int): (r: (nat, int))
    ensures r.0 >= i
  {
    var (j, b) := if i < |spec| && spec[i] == '.' then WrapSize(spec, i + 1, a) else (i, a);
    WrapIndex(spec, j, b)
  }

  /** From behind a `%` to its verb. */
  function WrapDirective(spec: string, i: nat, a: int): (r: (nat, int))
    ensures r.0 >= i
  {
    var (j, b) := WrapSize(spec, Skip(spec, i, IsFlag), a);
    WrapRest(spec, j, b)
  }

  function WrapScan(spec: string, i: nat, a: int): (string, seq<int>)
    requires i <= |spec|
    decreases |spec| - i
  {
    var j := Find(spec, '%', i);
    if j == |spec| then (spec[i..], [])
    else
      var (e, b) := WrapDirective(spec, j + 1, a);
      if e >= |spec| then (spec[i..], [])
      else
        var rest := WrapScan(spec, e + 1, if spec[e] == '%' then b else b + 1);
        if spec[e] == 'w' then (spec[i..e] + "v" + rest.0, [b] + rest.1)
        else (spec[i..e + 1] + rest.0, rest.1)
  }

  function Wrap(spec: string): (string, seq<int>) {
    if 'w' !in spec then (spec, []) else WrapScan(spec, 0, 0)
  }

  // ---- On well-formed text -------------------------------------------------------------------

  function Moved(idx: Option<string>, a: int): int
    requires IndexOk(idx)
  {
    if idx.Some? then Number(idx.value) - 1 else a
  }

  function SizeMoved(s: Size, a: int): int
    requires SizeOk(s)
  {
    if s.Star? then Moved(s.idx, a) + 1 else a
  }

  function PrecMoved(p: Option<Size>, a: int): int
    requires p.Some? ==> SizeOk(p.value)
  {
    if p.Some? then SizeMoved(p.value, a) else a
  }

  /** The cursor at the verb. */
  function AtVerb(d: Directive, a: int): int
    requires DirectiveOk(d)
  {
    Moved(d.idx, PrecMoved(d.prec, SizeMoved(d.width, a)))
  }

  predicate StopsAt(spec: string, i: nat, test: char -> bool) {
    i < |spec| && !test(spec[i])
  }

  lemma {:induction false} SkipRun(spec: string, i: nat, t: string, test: char -> bool)
    requires Stands(spec, i, t) && (forall k :: 0 <= k < |t| ==> test(t[k])) && StopsAt(spec, i + |t|, test)
    ensures Skip(spec, i, test) == i + |t|
    decreases |t|
  {
    if t != "" {
      assert t == [t[0]] + t[1..];
      StandsParts(spec, i, [t[0]], t[1..]);
      assert spec[i] == spec[i..i + |t|][0] == t[0];
      SkipRun(spec, i + 1, t[1..], test);
    }
  }

  lemma WrapIndexStands(spec: string, i: nat, idx: Option<string>, a: int)
    requires IndexOk(idx) && Stands(spec, i, IndexText(idx)) && (idx.None? ==> i < |spec| && spec[i] != '[')
    ensures WrapIndex(spec, i, a) == (i + |IndexText(idx)|, Moved(idx, a))
  {
    hide Number, Atoi, Digits;
    if idx.Some? {
      assert Digits(idx.value) && Number(idx.value) >= 1;
      IndexCloses(spec, i, idx.value);
      AtoiDigits(idx.value);
      assert Find(spec, ']', i) == Find(spec, ']', i + 1);
    }
  }

  predicate NoMore(spec: string, i: nat) {
    i < |spec| && spec[i] != '[' && spec[i] != '*' && !IsDigit(spec[i])
  }

  lemma WrapNoSize(spec: string, i: nat, idx: Option<string>, a: int)
    requires IndexOk(idx) && Stands(spec, i, IndexText(idx)) && NoMore(spec, i + |IndexText(idx)|)
    ensures WrapSize(spec, i, a) == (i + |IndexText(idx)|, Moved(idx, a))
  {
    WrapIndexStands(spec, i, idx, a);
  }

  lemma CharAt(spec: string, i: nat, t: string)
    requires t != "" && Stands(spec, i, t)
    ensures i < |spec| && spec[i] == t[0]
  {
    assert spec[i] == spec[i..i + |t|][0];
  }

  lemma WrapStar(spec: string, i: nat, idx: Option<string>, a: int)
    requires IndexOk(idx) && Stands(spec, i, IndexText(idx) + "*")
    ensures WrapSize(spec, i, a) == (i + |IndexText(idx)| + 1, Moved(idx, a) + 1)
  {
    hide WrapIndex, Moved, IndexOk;
    StandsParts(spec, i, IndexText(idx), "*");
    CharAt(spec, i + |IndexText(idx)|, "*");
    WrapIndexStands(spec, i, idx, a);
  }

  lemma WrapFixed(spec: string, i: nat, ds: string, a: int)
    requires ds != "" && Digits(ds) && Stands(spec, i, ds) && StopsAt(spec, i + |ds|, IsDigit)
    ensures WrapSize(spec, i, a) == (i + |ds|, a)
  {
    CharAt(spec, i, ds);
    SkipRun(spec, i, ds, IsDigit);
  }

  lemma WrapSizeStands(spec: string, i: nat, s: Size, a: int)
    requires SizeOk(s) && s != NoSize && (s.Fixed? ==> s.ds != "") && Stands(spec, i, SizeText(s))
    requires StopsAt(spec, i + |SizeText(s)|, IsDigit)
    ensures WrapSize(spec, i, a) == (i + |SizeText(s)|, SizeMoved(s, a))
  {
    hide WrapSize;
    if s.Star? { WrapStar(spec, i, s.idx, a); } else { WrapFixed(spec, i, s.ds, a); }
  }

  /** Nothing but the verb is left. */
  lemma RestIsVerb(spec: string, i: nat, verb: char, a: int)
    requires IsVerb(verb) && Stands(spec, i, [verb])
    ensures WrapRest(spec, i, a) == (i, a)
  {
    CharAt(spec, i, [verb]);
  }

  lemma RestIsIndex(spec: string, i: nat, idx: Option<string>, verb: char, a: int)
    requires IndexOk(idx) && IsVerb(verb) && Stands(spec, i, IndexText(idx) + [verb])
    ensures WrapRest(spec, i, a) == (i + |IndexText(idx)|, Moved(idx, a))
  {
    StandsParts(spec, i, IndexText(idx), [verb]);
    CharAt(spec, i, IndexText(idx) + [verb]);
    WrapIndexStands(spec, i, idx, a);
  }

  /** A precision and what follows it. */
  lemma RestIsPrec(spec: string, i: nat, s: Size, idx: Option<string>, verb: char, a: int)
    requires SizeOk(s) && s != NoSize && IndexOk(idx) && IsVerb(verb)
    requires Stands(spec, i, "." + SizeText(s)) && Stands(spec, i + 1 + |SizeText(s)|, IndexText(idx) + [verb])
    ensures WrapRest(spec, i, a) == (i + 1 + |SizeText(s)| + |IndexText(idx)|, Moved(idx, SizeMoved(s, a)))
  {
    hide WrapSize, WrapIndex, IsVerb, IndexOk, Moved, SizeMoved;
    var p := i + 1 + |SizeText(s)|;
    StandsParts(spec, i, ".", SizeText(s));
    CharAt(spec, i, ".");
    AfterPrec(spec, p, idx, verb);
    if s == Fixed("") {
      BareDot(spec, i, idx, verb, a);
    } else {
      WrapSizeStands(spec, i + 1, s, a);
      WrapIndexStands(spec, p, idx, SizeMoved(s, a));
    }
  }

  lemma AfterPrec(spec: string, p: nat, idx: Option<string>, verb: char)
    requires IndexOk(idx) && IsVerb(verb) && Stands(spec, p, IndexText(idx) + [verb])
    ensures Stands(spec, p, IndexText(idx)) && NoMore(spec, p + |IndexText(idx)|) && StopsAt(spec, p, IsDigit)
    ensures idx.None? ==> spec[p] != '['
  {
    CharAt(spec, p, IndexText(idx) + [verb]);
    StandsParts(spec, p, IndexText(idx), [verb]);
    CharAt(spec, p + |IndexText(idx)|, [verb]);
  }

  lemma BareDot(spec: string, i: nat, idx: Option<string>, verb: char, a: int)
    requires IndexOk(idx) && IsVerb(verb) && i < |spec| && spec[i] == '.'
    requires Stands(spec, i + 1, IndexText(idx) + [verb])
    ensures WrapRest(spec, i, a) == (i + 1 + |IndexText(idx)|, Moved(idx, SizeMoved(Fixed(""), a)))
  {
    hide WrapSize, WrapIndex, IsVerb, IndexOk, Moved;
    AfterPrec(spec, i + 1, idx, verb);
    WrapNoSize(spec, i + 1, idx, a);
    var e := i + 1 + |IndexText(idx)|;
    assert IndexText(None) == "" && Stands(spec, e, "");
    assert IndexOk(None) by { NoIndexOk(); }
    WrapIndexStands(spec, e, None, Moved(idx, a));
    assert Moved(None, Moved(idx, a)) == Moved(idx, a) by { MovedNone(Moved(idx, a)); }
  }

  lemma NoIndexOk()
    ensures IndexOk(None)
  {
  }

  lemma MovedNone(a: int)
    ensures IndexOk(None) && Moved(None, a) == a
  {
  }

  lemma RestStands(spec: string, i: nat, p: Option<Size>, idx: Option<string>, verb: char, a: int)
    requires (p.Some? ==> SizeOk(p.value) && p.value != NoSize) && IndexOk(idx) && IsVerb(verb)
    requires Stands(spec, i, PrecText(p) + (IndexText(idx) + [verb]))
    ensures WrapRest(spec, i, a) == (i + |PrecText(p)| + |IndexText(idx)|, Moved(idx, PrecMoved(p, a)))
  {
    hide WrapRest, IndexOk, IsVerb, Moved, SizeMoved, SizeOk;
    StandsParts(spec, i, PrecText(p), IndexText(idx) + [verb]);
    if p.Some? {
      RestIsPrec(spec, i, p.value, idx, verb, a);
    } else {
      RestIsIndex(spec, i, idx, verb, a);
    }
  }

  /** The width and what follows it. */
  lemma WidthAndRest(spec: string, i: nat, d: Directive, a: int)
    requires DirectiveOk(d) && Stands(spec, i, SizeText(d.width) + (PrecText(d.prec) + (IndexText(d.idx) + [d.verb])))
    ensures var (j, b) := WrapSize(spec, i, a);
      WrapRest(spec, j, b) == (i + |SizeText(d.width)| + |PrecText(d.prec)| + |IndexText(d.idx)|, AtVerb(d, a))
  {
    hide WrapSize, WrapRest, Moved, IndexOk, IsVerb, IsFlag, PrecText, IndexText;
    WidthStops(d, "");
    assert [d.verb] + "" == [d.verb];
    var rest := PrecText(d.prec) + (IndexText(d.idx) + [d.verb]);
    var p := i + |SizeText(d.width)|;
    StandsParts(spec, i, SizeText(d.width), rest);
    CharAt(spec, p, rest);
    if d.width != NoSize {
      WrapSizeStands(spec, i, d.width, a);
      RestStands(spec, p, d.prec, d.idx, d.verb, SizeMoved(d.width, a));
    } else {
      assert SizeText(d.width) + rest == rest;
      NoWidth(spec, i, d, a);
    }
  }

  lemma NoWidth(spec: string, i: nat, d: Directive, a: int)
    requires DirectiveOk(d) && d.width == NoSize && Stands(spec, i, PrecText(d.prec) + (IndexText(d.idx) + [d.verb]))
    ensures var (j, b) := WrapSize(spec, i, a);
      WrapRest(spec, j, b) == (i + |PrecText(d.prec)| + |IndexText(d.idx)|, AtVerb(d, a))
  {
    hide WrapSize, WrapRest, Moved, IndexOk, IsVerb;
    var rest := PrecText(d.prec) + (IndexText(d.idx) + [d.verb]);
    StandsParts(spec, i, PrecText(d.prec), IndexText(d.idx) + [d.verb]);
    MovedNone(a);
    if d.prec.Some? {
      CharAt(spec, i, rest);
      assert Stands(spec, i, IndexText(None));
      WrapNoSize(spec, i, None, a);
      RestStands(spec, i, d.prec, d.idx, d.verb, a);
    } else {
      AfterPrec(spec, i, d.idx, d.verb);
      WrapNoSize(spec, i, d.idx, a);
      StandsParts(spec, i, IndexText(d.idx), [d.verb]);
      RestIsVerb(spec, i + |IndexText(d.idx)|, d.verb, Moved(d.idx, a));
    }
  }

  lemma FlagsEnd(spec: string, i: nat, d: Directive)
    requires DirectiveOk(d) && Stands(spec, i, d.flags)
    requires Stands(spec, i + |d.flags|, SizeText(d.width) + (PrecText(d.prec) + (IndexText(d.idx) + [d.verb])))
    ensures Skip(spec, i, IsFlag) == i + |d.flags|
  {
    hide DirectiveOk;
    var rest := SizeText(d.width) + (PrecText(d.prec) + (IndexText(d.idx) + [d.verb]));
    CharAt(spec, i + |d.flags|, rest);
    WidthStops(d, "");
    assert [d.verb] + "" == [d.verb];
    assert Flags(d.flags) by { FlagsOk(d); }
    SkipRun(spec, i, d.flags, IsFlag);
  }

  lemma FlagsOk(d: Directive)
    requires DirectiveOk(d)
    ensures Flags(d.flags)
  {
  }

  lemma WrapDirectiveStands(spec: string, i: nat, d: Directive, a: int)
    requires DirectiveOk(d) && Stands(spec, i, Tail(d) + [d.verb])
    ensures WrapDirective(spec, i, a) == (i + |Tail(d)|, AtVerb(d, a)) && spec[i + |Tail(d)|] == d.verb
  {
    hide WrapSize, WrapRest, AtVerb, DirectiveOk, SizeText, PrecText, IndexText;
    var rest := SizeText(d.width) + (PrecText(d.prec) + (IndexText(d.idx) + [d.verb]));
    assert Tail(d) + [d.verb] == d.flags + rest;
    StandsParts(spec, i, Tail(d), [d.verb]);
    CharAt(spec, i + |Tail(d)|, [d.verb]);
    StandsParts(spec, i, d.flags, rest);
    FlagsEnd(spec, i, d);
    WidthAndRest(spec, i + |d.flags|, d, a);
  }

  // ---- Whole strings ------------------------------------------------------------------------------

  function Unwrapped(d: Directive): Directive {
    if d.verb == 'w' then d.(verb := 'v') else d
  }

  function UnwrapItem(t: Item): Item {
    match t case Lit(s) => Lit(s) case Dir(d) => Dir(Unwrapped(d))
  }

  function UnwrapAll(items: seq<Item>): seq<Item> {
    if items == [] then [] else [UnwrapItem(items[0])] + UnwrapAll(items[1..])
  }

  function AfterVerb(d: Directive, a: int): int
    requires DirectiveOk(d)
  {
    if d.verb == '%' then AtVerb(d, a) else AtVerb(d, a) + 1
  }

  /** The operand every %w names, in order. */
  function Positions(items: seq<Item>, a: int): seq<int>
    requires ItemsOk(items)
    decreases |items|
  {
    if items == [] then []
    else
      match items[0]
      case Lit(s) => Positions(items[1..], a)
      case Dir(d) => (if d.verb == 'w' then [AtVerb(d, a)] else []) + Positions(items[1..], AfterVerb(d, a))
  }

  lemma SliceLit(spec: string, i: nat, s: string, k: nat, more: string)
    requires Stands(spec, i, s) && i + |s| <= k <= |spec|
    ensures spec[i..k] + more == s + (spec[i + |s|..k] + more)
  {
    assert spec[i..k] == s + spec[i + |s|..k];
  }

  lemma SliceW(spec: string, i: nat, s: string, k: nat, more: string)
    requires Stands(spec, i, s) && i + |s| <= k <= |spec|
    ensures spec[i..k] + "v" + more == s + (spec[i + |s|..k] + "v" + more)
  {
    assert spec[i..k] == s + spec[i + |s|..k];
  }

  lemma FindPast(spec: string, i: nat, s: string)
    requires Stands(spec, i, s) && '%' !in s
    ensures Find(spec, '%', i) == Find(spec, '%', i + |s|)
  {
    assert forall k :: i <= k < i + |s| ==> spec[k] == spec[i..i + |s|][k - i] == s[k - i];
    FindAfter(spec, '%', i, i + |s|);
  }

  lemma ScanLit(spec: string, i: nat, s: string, a: int)
    requires Stands(spec, i, s) && '%' !in s
    ensures WrapScan(spec, i, a) == var r := WrapScan(spec, i + |s|, a); (s + r.0, r.1)
  {
    hide WrapDirective, Find;
    FindPast(spec, i, s);
    var j := Find(spec, '%', i);
    assert spec[i..] == s + spec[i + |s|..];
    if j < |spec| {
      var (e, b) := WrapDirective(spec, j + 1, a);
      if e < |spec| {
        var rest := WrapScan(spec, e + 1, if spec[e] == '%' then b else b + 1).0;
        SliceLit(spec, i, s, e + 1, rest);
        SliceW(spec, i, s, e, rest);
      }
    }
  }

  lemma ScanDir(spec: string, i: nat, d: Directive, a: int)
    requires DirectiveOk(d) && Stands(spec, i, Text(d))
    ensures WrapScan(spec, i, a) == var r := WrapScan(spec, i + |Text(d)|, AfterVerb(d, a));
      (Text(Unwrapped(d)) + r.0, (if d.verb == 'w' then [AtVerb(d, a)] else []) + r.1)
  {
    hide WrapDirective, Tail, AtVerb, DirectiveOk;
    StandsParts(spec, i, "%", Tail(d) + [d.verb]);
    CharAt(spec, i, "%");
    WrapDirectiveStands(spec, i + 1, d, a);
    var e := i + 1 + |Tail(d)|;
    var r := WrapScan(spec, e + 1, AfterVerb(d, a));
    StandsParts(spec, i + 1, Tail(d), [d.verb]);
    assert [] + r.1 == r.1;
    if d.verb == 'w' {
      SameTail(d);
      assert spec[i..e] == "%" + Tail(d);
      assert "%" + Tail(d) + "v" == Text(Unwrapped(d));
    } else {
      assert spec[i..e + 1] == Text(d);
    }
  }

  lemma SameTail(d: Directive)
    ensures Tail(Unwrapped(d)) == Tail(d)
  {
  }

  lemma PositionsFirst(items: seq<Item>, a: int)
    requires ItemsOk(items) && items != []
    ensures ItemsOk(items[1..])
    ensures items[0].Lit? ==> Positions(items, a) == Positions(items[1..], a) && '%' !in items[0].s
    ensures items[0].Dir? ==>
      var d := items[0].d;
      && DirectiveOk(d)
      && Positions(items, a) == (if d.verb == 'w' then [AtVerb(d, a)] else []) + Positions(items[1..], AfterVerb(d, a))
  {
    hide DirectiveOk, AtVerb, AfterVerb;
  }

  lemma RenderUnwrapped(items: seq<Item>)
    requires items != []
    ensures Render(UnwrapAll(items)) == ItemText(UnwrapItem(items[0])) + Render(UnwrapAll(items[1..]))
  {
    assert UnwrapAll(items)[1..] == UnwrapAll(items[1..]);
  }

  lemma {:induction false} WrapItems(spec: string, i: nat, items: seq<Item>, a: int)
    requires ItemsOk(items) && i <= |spec| && Laid(spec, i, items)
    ensures WrapScan(spec, i, a) == (Render(UnwrapAll(items)), Positions(items, a))
    decreases |items|
  {
    hide WrapScan, Text, DirectiveOk, AtVerb, AfterVerb, Unwrapped, Positions, Render, UnwrapAll, ItemsOk, Stands;
    if items == [] {
      NothingLeft(spec, i, a);
    } else {
      PositionsFirst(items, a);
      RenderUnwrapped(items);
      LaidFirst(spec, i, items);
      if items[0].Lit? {
        assert i + |items[0].s| <= |spec| by { StandsFits(spec, i, items[0].s); }
        ScanLit(spec, i, items[0].s, a);
        WrapItems(spec, i + |items[0].s|, items[1..], a);
      } else {
        var d := items[0].d;
        assert i + |Text(d)| <= |spec| by { StandsFits(spec, i, Text(d)); }
        ScanDir(spec, i, d, a);
        WrapItems(spec, i + |Text(d)|, items[1..], AfterVerb(d, a));
      }
    }
  }

  lemma NothingLeft(spec: string, i: nat, a: int)
    requires i == |spec|
    ensures WrapScan(spec, i, a) == (Render(UnwrapAll([])), Positions([], a))
  {
    assert spec[i..] == "";
  }

  lemma {:induction false} NoWrapVerb(items: seq<Item>, a: int)
    requires ItemsOk(items) && 'w' !in Render(items)
    ensures UnwrapAll(items) == items && Positions(items, a) == []
    decreases |items|
  {
    hide DirectiveOk, AtVerb, AfterVerb, ItemText, Positions, ItemsOk;
    if items == [] {
      assert Positions(items, a) == [] by { NoPositions(a); }
    } else {
      var t := ItemText(items[0]);
      assert forall c :: c in t || c in Render(items[1..]) ==> c in Render(items);
      PositionsFirst(items, a);
      if items[0].Lit? {
        NoWrapVerb(items[1..], a);
      } else {
        VerbInText(items[0].d);
        NoWrapVerb(items[1..], AfterVerb(items[0].d, a));
      }
    }
  }

  lemma NoPositions(a: int)
    ensures Positions([], a) == []
  {
  }

  lemma VerbInText(d: Directive)
    ensures d.verb in ItemText(Dir(d))
  {
    var t := ItemText(Dir(d));
    assert t[|t| - 1] == d.verb;
  }

  /** What the rewriting returns for a well-formed string. */
  lemma WrapOf(items: seq<Item>)
    requires ItemsOk(items)
    ensures Wrap(Render(items)) == (Render(UnwrapAll(items)), Positions(items, 0))
  {
    hide WrapScan, Positions, UnwrapAll, ItemsOk;
    var spec := Render(items);
    if 'w' !in spec {
      NoWrapVerb(items, 0);
    } else {
      assert spec[0..] == spec;
      RenderLaid(spec, 0, items);
      WrapItems(spec, 0, items, 0);
    }
  }
}
