/** rewriteWrapVerbs as it runs: one left-to-right pass that copies the string and keeps the
    operand cursor. */
module WrapLoops {
  import opened Format
  import opened TypeVerbs
  import opened WrapVerbs

  method SkipWhile(spec: string, i: nat, test: char -> bool) returns (j: nat)
    ensures j == Skip(spec, i, test)
  {
    j := i;
    while j < |spec| && test(spec[j])
      invariant Skip(spec, i, test) == Skip(spec, j, test)
      decreases |spec| - j
    {
      j := j + 1;
    }
  }

  /** A width or precision: `*` takes an operand, digits do not. */
  method ReadWidth(spec: string, i: nat, a: int) returns (j: nat, b: int)
    ensures (j, b) == WrapSize(spec, i, a)
  {
    var (k, c) := WrapIndex(spec, i, a);
    j, b := k, c;
    if j < |spec| && spec[j] == '*' {
      j, b := j + 1, b + 1;
    } else {
      j := SkipWhile(spec, j, IsDigit);
    }
  }

  /** From behind a `%` to its verb. */
  method ReadToVerb(spec: string, start: nat, a: int) returns (i: nat, argNum: int)
    ensures (i, argNum) == WrapDirective(spec, start, a)
  {
    hide Skip, WrapSize, WrapIndex;
    i := SkipWhile(spec, start, IsFlag);
    i, argNum := ReadWidth(spec, i, a);
    if i < |spec| && spec[i] == '.' {
      i, argNum := ReadWidth(spec, i + 1, argNum);
    }
    var (k, b) := WrapIndex(spec, i, argNum);
    i, argNum := k, b;
  }

  /** The text written and the positions recorded so far, in front of what is still to come. */
  function Before(sb: string, ps: seq<int>, rest: (string, seq<int>)): (string, seq<int>) {
    (sb + rest.0, ps + rest.1)
  }

  /** One round of the scan: the text it writes, the positions it records, where it goes on. */
  lemma Round(spec: string, i: nat, a: int, sb: string, ps: seq<int>)
    requires i <= |spec| && Find(spec, '%', i) < |spec|
    ensures var j := Find(spec, '%', i);
      var (e, b) := WrapDirective(spec, j + 1, a);
      if e >= |spec| then Before(sb, ps, WrapScan(spec, i, a)) == (sb + spec[i..j] + spec[j..], ps)
      else
        var rest := WrapScan(spec, e + 1, if spec[e] == '%' then b else b + 1);
        Before(sb, ps, WrapScan(spec, i, a))
          == if spec[e] == 'w' then Before(sb + spec[i..j] + spec[j..e] + "v", ps + [b], rest)
             else Before(sb + spec[i..j] + spec[j..e + 1], ps, rest)
  {
    hide WrapDirective, Find, WrapScan;
    var j := Find(spec, '%', i);
    var (e, b) := WrapDirective(spec, j + 1, a);
    ScanRound(spec, i, a);
    if e >= |spec| {
      assert sb + spec[i..] == sb + spec[i..j] + spec[j..] && ps + [] == ps;
    } else {
      var rest := WrapScan(spec, e + 1, if spec[e] == '%' then b else b + 1);
      if spec[e] == 'w' {
        Copied(sb, spec, i, j, e, "v" + rest.0);
        assert ps + ([b] + rest.1) == ps + [b] + rest.1;
        assert sb + spec[i..j] + spec[j..e] + "v" + rest.0 == sb + spec[i..j] + spec[j..e] + ("v" + rest.0);
        assert spec[i..e] + "v" + rest.0 == spec[i..e] + ("v" + rest.0);
      } else {
        Copied(sb, spec, i, j, e + 1, rest.0);
      }
    }
  }

  lemma ScanRound(spec: string, i: nat, a: int)
    requires i <= |spec| && Find(spec, '%', i) < |spec|
    ensures var (e, b) := WrapDirective(spec, Find(spec, '%', i) + 1, a);
      WrapScan(spec, i, a) ==
      if e >= |spec| then (spec[i..], [])
      else
        var rest := WrapScan(spec, e + 1, if spec[e] == '%' then b else b + 1);
        if spec[e] == 'w' then (spec[i..e] + "v" + rest.0, [b] + rest.1) else (spec[i..e + 1] + rest.0, rest.1)
  {
    hide WrapDirective, Find;
  }

  lemma Copied(sb: string, spec: string, i: nat, j: nat, e: nat, tail: string)
    requires i <= j <= e <= |spec|
    ensures sb + (spec[i..e] + tail) == sb + spec[i..j] + spec[j..e] + tail
  {
  }

  method RewriteWrapVerbs(spec: string) returns (text: string, wrapPos: seq<int>)
    ensures (text, wrapPos) == Wrap(spec)
  {
    hide WrapScan, WrapDirective, Find;
    if 'w' !in spec { return spec, []; }
    var i, argNum := 0, 0;
    text, wrapPos := "", [];
    ghost var goal := WrapScan(spec, 0, 0);
    assert "" + goal.0 == goal.0 && [] + goal.1 == goal.1;
    while i < |spec|
      invariant 0 <= i <= |spec| && goal == Before(text, wrapPos, WrapScan(spec, i, argNum))
      decreases |spec| - i
    {
      var pct := Find(spec, '%', i);
      if pct == |spec| {
        NothingMore(spec, i, argNum);
        return text + spec[i..], wrapPos + [];
      }
      Round(spec, i, argNum, text, wrapPos);
      text := text + spec[i..pct];
      var e, b := ReadToVerb(spec, pct + 1, argNum);
      if e >= |spec| { return text + spec[pct..], wrapPos; }
      argNum := b;
      if spec[e] == '%' {
        text := text + spec[pct..e + 1];
      } else if spec[e] == 'w' {
        text, wrapPos, argNum := text + spec[pct..e] + "v", wrapPos + [argNum], argNum + 1;
      } else {
        text, argNum := text + spec[pct..e + 1], argNum + 1;
      }
      i := e + 1;
    }
    NothingMore(spec, i, argNum);
    assert text + spec[i..] == text && wrapPos + [] == wrapPos;
  }

  lemma NothingMore(spec: string, i: nat, a: int)
    requires i <= |spec| && (Find(spec, '%', i) == |spec| || i == |spec|)
    ensures WrapScan(spec, i, a) == (spec[i..], [])
  {
  }
}
