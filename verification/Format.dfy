/** printf format strings: the directive grammar of Go's fmt, how the host reads a string
    as directives, and what a string prints over a list of operands. */
module Format {
  import opened Basics

  predicate IsDigit(c: char) { '0' <= c <= '9' }
  predicate IsFlag(c: char) { c == '#' || c == '+' || c == '-' || c == ' ' || c == '0' }
  predicate Digits(s: string) { forall k :: 0 <= k < |s| ==> IsDigit(s[k]) }
  predicate Flags(s: string) { forall k :: 0 <= k < |s| ==> IsFlag(s[k]) }

  /** The number a digit string spells. */
  function Number(s: string): nat
    requires Digits(s)
  {
    if s == "" then 0 else 10 * Number(s[..|s| - 1]) + (s[|s| - 1] as nat - '0' as nat)
  }

  // ---- Directives ------------------------------------------------------------------------

  /** A width or precision: absent, written out, or taken from an operand, `*` or `[n]*`. */
  datatype Size = NoSize | Fixed(ds: string) | Star(idx: Option<string>)

  /** `%`, flags, width, precision, `[n]`, verb. */
  datatype Directive = Directive(flags: string, width: Size, prec: Option<Size>, idx: Option<string>, verb: char)

  datatype Item = Lit(s: string) | Dir(d: Directive)

  const TOO_LARGE: nat := 1_000_000

  /** A number fmt reads to its end: it gives up when there is a digit left to read and the
      number so far is past a million. */
  predicate NumberOk(ds: string) {
    ds != "" && Digits(ds) && Number(ds[..|ds| - 1]) <= TOO_LARGE
  }

  predicate IndexOk(idx: Option<string>) {
    idx.Some? ==> NumberOk(idx.value) && 1 <= Number(idx.value)
  }

  predicate IsVerb(c: char) {
    !IsDigit(c) && !IsFlag(c) && c != '.' && c != '*' && c != '['
  }

  predicate DirectiveOk(d: Directive) {
    && Flags(d.flags)
    && (match d.width
        case NoSize => true
        case Fixed(ds) => NumberOk(ds) && ds[0] != '0'
        case Star(idx) => IndexOk(idx))
    && (match d.prec
        case None => true
        case Some(NoSize) => false
        case Some(Fixed(ds)) => ds == "" || NumberOk(ds)
        case Some(Star(idx)) => IndexOk(idx))
    && IndexOk(d.idx)
    && IsVerb(d.verb)
  }

  /** Well-formed formats: legal directives, with the text between them in maximal pieces. */
  predicate ItemsOk(items: seq<Item>) {
    items != [] ==>
      (match items[0]
       case Lit(s) => s != "" && '%' !in s && (|items| > 1 ==> items[1].Dir?)
       case Dir(d) => DirectiveOk(d))
      && ItemsOk(items[1..])
  }

  function IndexText(idx: Option<string>): string {
    if idx.Some? then "[" + idx.value + "]" else ""
  }

  function SizeText(s: Size): string {
    match s
    case NoSize => ""
    case Fixed(ds) => ds
    case Star(idx) => IndexText(idx) + "*"
  }

  function PrecText(p: Option<Size>): string {
    if p.Some? then "." + SizeText(p.value) else ""
  }

  /** The text between `%` and the verb. */
  function Tail(d: Directive): string {
    d.flags + (SizeText(d.width) + (PrecText(d.prec) + IndexText(d.idx)))
  }

  function Text(d: Directive): string {
    "%" + (Tail(d) + [d.verb])
  }

  function ItemText(t: Item): string {
    match t case Lit(s) => s case Dir(d) => Text(d)
  }

  function Render(items: seq<Item>): string {
    if items == [] then "" else ItemText(items[0]) + Render(items[1..])
  }

  // ---- How the host reads a string --------------------------------------------------------

  /** The longest prefix whose characters pass the test. */
  function Span(s: string, test: char -> bool): (n: nat)
    ensures n <= |s| && (forall k :: 0 <= k < n ==> test(s[k])) && (n < |s| ==> !test(s[n]))
  {
    if s == "" || !test(s[0]) then 0 else 1 + Span(s[1..], test)
  }

  /** `[digits]` at the front of `s`: the digits and the rest. */
  function ReadIndex(s: string): (Option<string>, string) {
    if s == "" || s[0] != '[' then (None, s)
    else
      var n := Span(s[1..], IsDigit);
      var ds := s[1..1 + n];
      if 1 + n < |s| && s[1 + n] == ']' && IndexOk(Some(ds)) then (Some(ds), s[n + 2..]) else (None, s)
  }

  /** A width or precision at the front of `s`, with the index no star took. An index followed
      by digits is what fmt calls a bad index; a number too large ends the whole format. */
  datatype SizeRead = BadSize | SizeRead(size: Size, idx: Option<string>, rest: string)

  function ReadSize(s: string): SizeRead {
    var (idx, s1) := ReadIndex(s);
    if s1 != "" && s1[0] == '*' then SizeRead(Star(idx), None, s1[1..])
    else
      var n := Span(s1, IsDigit);
      if n == 0 then SizeRead(NoSize, idx, s1)
      else if idx.Some? || !NumberOk(s1[..n]) then BadSize
      else SizeRead(Fixed(s1[..n]), None, s1[n..])
  }

  /** A directive at the front of `s`, which follows a `%`. */
  function ReadDirective(s: string): Option<(Directive, string)> {
    var n := Span(s, IsFlag);
    var w := ReadSize(s[n..]);
    if w.BadSize? then None
    else if w.rest != "" && w.rest[0] == '.' then
      if w.idx.Some? then None else PrecRead(s[..n], w.size, w.rest[1..])
    else ReadVerb(Directive(s[..n], w.size, None, w.idx, ' '), w.rest)
  }

  /** The precision and what follows it. */
  function PrecRead(flags: string, width: Size, s: string): Option<(Directive, string)> {
    var p := ReadSize(s);
    if p.BadSize? then None
    else ReadVerb(Directive(flags, width, Some(if p.size == NoSize then Fixed("") else p.size), p.idx, ' '), p.rest)
  }

  /** The index before the verb, unless one was read already, and the verb. */
  function ReadVerb(d: Directive, s: string): Option<(Directive, string)> {
    var (i, s1) := if d.idx.Some? then (d.idx, s) else ReadIndex(s);
    if s1 == "" || !IsVerb(s1[0]) then None else Some((d.(idx := i, verb := s1[0]), s1[1..]))
  }

  predicate NotPercent(c: char) { c != '%' }

  /** The whole string as items; None when some directive is malformed. */
  function HostParse(s: string): Option<seq<Item>>
    decreases |s|
  {
    if s == "" then Some([])
    else if s[0] == '%' then
      var d := ReadDirective(s[1..]);
      if d.None? || |d.value.1| >= |s| then None
      else
        var rest := HostParse(d.value.1);
        if rest.None? then None else Some([Dir(d.value.0)] + rest.value)
    else
      var n := Span(s, NotPercent);
      var rest := HostParse(s[n..]);
      if rest.None? then None else Some([Lit(s[..n])] + rest.value)
  }

  // ---- Well-formed strings are read as written ------------------------------------------------

  lemma {:induction false} SpanOf(a: string, b: string, test: char -> bool)
    requires (forall k :: 0 <= k < |a| ==> test(a[k])) && (b != "" ==> !test(b[0]))
    ensures Span(a + b, test) == |a| && (a + b)[..|a|] == a && (a + b)[|a|..] == b
  {
    assert (a + b)[..|a|] == a && (a + b)[|a|..] == b;
    if a != "" {
      assert (a + b)[0] == a[0];
      assert (a + b)[1..] == a[1..] + b;
      SpanOf(a[1..], b, test);
    } else {
      assert a + b == b;
    }
  }

  lemma ReadBracket(ds: string, s: string)
    requires IndexOk(Some(ds))
    ensures ReadIndex("[" + ds + "]" + s) == (Some(ds), s)
  {
    hide Number;
    var t := "[" + ds + "]" + s;
    assert t[1..] == ds + ("]" + s);
    SpanOf(ds, "]" + s, IsDigit);
    assert t[1..1 + |ds|] == ds && t[1 + |ds|] == ']' && t[|ds| + 2..] == s;
  }

  lemma ReadIndexText(idx: Option<string>, s: string)
    requires IndexOk(idx) && (s != "" ==> s[0] != '[')
    ensures ReadIndex(IndexText(idx) + s) == (idx, s)
  {
    hide IndexOk, Span;
    if idx.Some? {
      ReadBracket(idx.value, s);
    } else {
      assert IndexText(idx) + s == s;
    }
  }

  /** What may follow a size: the next part of a directive, whose first character ends it. */
  predicate Ends(s: string) {
    s != "" && !IsDigit(s[0]) && s[0] != '*'
  }

  lemma ReadSizeText(w: Size, s: string)
    requires w != NoSize && (w.Star? ==> IndexOk(w.idx)) && (w.Fixed? ==> NumberOk(w.ds)) && Ends(s)
    ensures ReadSize(SizeText(w) + s) == SizeRead(w, None, s)
  {
    match w
    case Star(idx) =>
      assert SizeText(w) + s == IndexText(idx) + ("*" + s);
      ReadIndexText(idx, "*" + s);
      assert ("*" + s)[1..] == s;
    case Fixed(ds) =>
      SpanOf(ds, s, IsDigit);
      assert (ds + s)[0] == ds[0];
  }

  /** No size: an index before the verb is read here already. */
  lemma ReadNoSize(idx: Option<string>, s: string)
    requires IndexOk(idx) && Ends(s) && s[0] != '['
    ensures ReadSize(IndexText(idx) + s) == SizeRead(NoSize, idx, s)
  {
    ReadIndexText(idx, s);
    assert "" + s == s;
    SpanOf("", s, IsDigit);
  }

  lemma ReadVerbText(d: Directive, s: string)
    requires DirectiveOk(d)
    ensures ReadVerb(Directive(d.flags, d.width, d.prec, None, ' '), IndexText(d.idx) + ([d.verb] + s)) == Some((d, s))
    ensures d.idx.Some? ==> ReadVerb(Directive(d.flags, d.width, d.prec, d.idx, ' '), [d.verb] + s) == Some((d, s))
  {
    var v := [d.verb] + s;
    ReadIndexText(d.idx, v);
    assert v[0] == d.verb && v[1..] == s;
  }

  lemma ReadPrec(d: Directive, s: string)
    requires DirectiveOk(d) && d.prec.Some?
    ensures PrecRead(d.flags, d.width, SizeText(d.prec.value) + (IndexText(d.idx) + ([d.verb] + s))) == Some((d, s))
  {
    var v, size := [d.verb] + s, d.prec.value;
    ReadVerbText(d, s);
    if size == Fixed("") {
      assert SizeText(size) + (IndexText(d.idx) + v) == IndexText(d.idx) + v;
      ReadNoSize(d.idx, v);
      if d.idx.None? { assert IndexText(d.idx) + v == v; }
    } else {
      ReadSizeText(size, IndexText(d.idx) + v);
    }
  }

  lemma ReadText(d: Directive, s: string)
    requires DirectiveOk(d)
    ensures ReadDirective(Tail(d) + ([d.verb] + s)) == Some((d, s))
  {
    var v := [d.verb] + s;
    var after := PrecText(d.prec) + (IndexText(d.idx) + v);
    var whole := SizeText(d.width) + after;
    assert Tail(d) + v == d.flags + whole;
    WidthStops(d, s);
    SpanOf(d.flags, whole, IsFlag);
    if d.prec.Some? {
      ReadWithPrec(d, s, after, whole);
    } else {
      ReadWithoutPrec(d, s, after, whole);
    }
  }

  lemma ReadWithPrec(d: Directive, s: string, after: string, whole: string)
    requires DirectiveOk(d) && d.prec.Some? && Ends(after)
    requires after == PrecText(d.prec) + (IndexText(d.idx) + ([d.verb] + s)) && whole == SizeText(d.width) + after
    ensures ReadSize(whole) == SizeRead(d.width, None, after) && after[0] == '.'
    ensures PrecRead(d.flags, d.width, after[1..]) == Some((d, s))
  {
    assert after[0] == '.' && after[1..] == SizeText(d.prec.value) + (IndexText(d.idx) + ([d.verb] + s));
    ReadBeforeDot(d.width, after, whole);
    ReadPrec(d, s);
  }

  lemma ReadBeforeDot(w: Size, after: string, whole: string)
    requires (w.Star? ==> IndexOk(w.idx)) && (w.Fixed? ==> NumberOk(w.ds))
    requires Ends(after) && after[0] == '.' && whole == SizeText(w) + after
    ensures ReadSize(whole) == SizeRead(w, None, after)
  {
    if w != NoSize {
      ReadSizeText(w, after);
    } else {
      assert whole == after == IndexText(None) + after;
      ReadNoSize(None, after);
    }
  }

  lemma ReadWithoutPrec(d: Directive, s: string, after: string, whole: string)
    requires DirectiveOk(d) && d.prec.None? && Ends(after)
    requires after == PrecText(d.prec) + (IndexText(d.idx) + ([d.verb] + s)) && whole == SizeText(d.width) + after
    ensures var w := ReadSize(whole);
      w.SizeRead? && w.rest != "" && w.rest[0] != '.'
      && ReadVerb(Directive(d.flags, w.size, None, w.idx, ' '), w.rest) == Some((d, s))
  {
    var v := [d.verb] + s;
    assert after == IndexText(d.idx) + v;
    ReadVerbText(d, s);
    if d.width != NoSize {
      ReadSizeText(d.width, after);
    } else {
      assert whole == after;
      ReadNoSize(d.idx, v);
      if d.idx.None? { assert after == v; }
    }
  }

  /** The flags end where the width, or what follows it, begins. */
  lemma WidthStops(d: Directive, s: string)
    requires DirectiveOk(d)
    ensures var after := PrecText(d.prec) + (IndexText(d.idx) + ([d.verb] + s));
      Ends(after) && SizeText(d.width) + after != "" && !IsFlag((SizeText(d.width) + after)[0])
  {
  }

  lemma ParseLit(t: string, rest: string)
    requires t != "" && '%' !in t && (rest != "" ==> rest[0] == '%')
    ensures HostParse(t + rest) == var r := HostParse(rest); if r.None? then None else Some([Lit(t)] + r.value)
  {
    SpanOf(t, rest, NotPercent);
    assert (t + rest)[0] == t[0] && t[0] in t;
  }

  lemma ParseDir(d: Directive, rest: string)
    requires DirectiveOk(d)
    ensures HostParse(Text(d) + rest) == var r := HostParse(rest); if r.None? then None else Some([Dir(d)] + r.value)
  {
    var s := Text(d) + rest;
    assert s[0] == '%' && s[1..] == Tail(d) + ([d.verb] + rest);
    ReadText(d, rest);
  }

  /** The host reads a well-formed string as the items it was written from; in particular
      the items are determined by the string. */
  lemma {:induction false} ParseRender(items: seq<Item>)
    requires ItemsOk(items)
    ensures HostParse(Render(items)) == Some(items)
    decreases |items|
  {
    if items != [] {
      var rest := Render(items[1..]);
      assert items == [items[0]] + items[1..];
      ParseRender(items[1..]);
      match items[0]
      case Lit(t) =>
        if |items| > 1 { assert items[1].Dir? && items[1..][0] == items[1]; }
        ParseLit(t, rest);
      case Dir(d) =>
        ParseDir(d, rest);
    }
  }
}
