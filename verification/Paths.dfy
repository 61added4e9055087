/** Host paths and script paths: fsPath resolves a script's spelling, scriptPathOf maps a host path
    back to it. Paths are Unix paths; Clean and Join do what path/filepath documents. */
module Paths {
  import opened Basics

  predicate IsAbs(s: string) { s != "" && s[0] == '/' }

  /** One more character in front: a separator starts a piece of its own. */
  function Front(c: char, r: seq<string>): (t: seq<string>)
    requires r != []
    ensures t != []
  {
    if c == '/' then [""] + r else [[c] + r[0]] + r[1..]
  }

  /** The pieces between the separators. */
  function Split(s: string): (r: seq<string>)
    ensures r != []
  {
    if s == "" then [""] else Front(s[0], Split(s[1..]))
  }

  function Joined(ps: seq<string>): string {
    if ps == [] then ""
    else if |ps| == 1 then ps[0]
    else ps[0] + "/" + Joined(ps[1..])
  }

  // ---- Clean and Join ------------------------------------------------------------------------

  /** One element of a path, after the elements `st` kept so far. */
  function Push(rooted: bool, st: seq<string>, x: string): seq<string> {
    if x == "" || x == "." then st
    else if x != ".." then st + [x]
    else if st != [] && st[|st| - 1] != ".." then st[..|st| - 1]
    else if rooted then st
    else st + [".."]
  }

  function Norm(rooted: bool, st: seq<string>, xs: seq<string>): seq<string>
    decreases |xs|
  {
    if xs == [] then st else Norm(rooted, Push(rooted, st, xs[0]), xs[1..])
  }

  function Clean(s: string): string {
    if IsAbs(s) then "/" + Joined(Norm(true, [], Split(s)))
    else
      var st := Norm(false, [], Split(s));
      if st == [] then "." else Joined(st)
  }

  /** Empty elements are ignored. */
  function Join(a: string, b: string): string {
    if a == "" && b == "" then "" else if a == "" then Clean(b) else if b == "" then Clean(a) else Clean(a + "/" + b)
  }

  /** Relative paths anchor at the working directory; the check against the allowed roots, which
      either passes or fails the call, is not part of this model. */
  function FsPath(cwd: string, sp: string): string {
    Clean(if IsAbs(sp) then sp else Join(cwd, sp))
  }

  // ---- scriptPathOf --------------------------------------------------------------------------

  function CutPrefix(s: string, prefix: string): Option<string> {
    if prefix <= s then Some(s[|prefix|..]) else None
  }

  function CutSuffix(s: string, suffix: string): Option<string> {
    if |suffix| <= |s| && s[|s| - |suffix|..] == suffix then Some(s[..|s| - |suffix|]) else None
  }

  predicate EndsWithSlash(s: string) { s != "" && s[|s| - 1] == '/' }

  /** p's remainder below the directory dir. */
  function CutPathPrefix(p: string, dir: string): Option<string> {
    var rest := CutPrefix(p, dir);
    if rest.None? || rest.value == "" then None
    else if EndsWithSlash(dir) then rest
    else CutPrefix(rest.value, "/")
  }

  function TrimSlashes(s: string): string {
    if EndsWithSlash(s) then TrimSlashes(s[..|s| - 1]) else s
  }

  /** The text in front of the last separator. */
  function BeforeSlash(s: string): Option<string> {
    if s == "" then None
    else if s[|s| - 1] == '/' then Some(s[..|s| - 1])
    else BeforeSlash(s[..|s| - 1])
  }

  function OrRoot(s: string): string { if s == "" then "/" else s }

  /** One trailing element dropped. */
  function DropElement(t: string): Option<string> {
    var b := BeforeSlash(TrimSlashes(t));
    if b.None? then None else Some(OrRoot(b.value))
  }

  function DropElements(t: string, n: nat): Option<string>
    decreases n
  {
    if n == 0 then Some(t)
    else
      var d := DropElement(t);
      if d.None? then None else DropElements(d.value, n - 1)
  }

  /** The spelled path t resolved the way sp was resolved to ap. */
  function ResolveLike(sp: string, ap: string, t: string): string {
    if IsAbs(t) then Clean(t)
    else
      var csp := Clean(sp);
      if csp == "." then Join(ap, t)
      else
        var base := CutSuffix(ap, "/" + csp);
        if base.None? || ".." <= csp then "" else Join(base.value, t)
  }

  function ScriptPathOf(sp: string, ap: string, p: string): string {
    if p == ap then sp
    else if CutPathPrefix(p, ap).Some? then Join(sp, CutPathPrefix(p, ap).value)
    else if CutPathPrefix(ap, p).Some? then
      var t := DropElements(sp, |Split(CutPathPrefix(ap, p).value)|);
      if t.None? then p
      else
        var u := OrRoot(TrimSlashes(t.value));
        if ResolveLike(sp, ap, u) == p then u else p
    else p
  }

  /** scriptPathOf as it runs. */
  method MapBack(sp: string, ap: string, p: string) returns (r: string)
    ensures r == ScriptPathOf(sp, ap, p)
  {
    if p == ap { return sp; }
    var below := CutPathPrefix(p, ap);
    if below.Some? { return Join(sp, below.value); }
    var above := CutPathPrefix(ap, p);
    if above.Some? {
      var t := sp;
      var n := |Split(above.value)|;
      for i := 0 to n
        invariant DropElements(sp, n) == DropElements(t, n - i)
      {
        t := TrimSlashes(t);
        var b := BeforeSlash(t);
        if b.None? { return p; }
        t := OrRoot(b.value);
      }
      t := OrRoot(TrimSlashes(t));
      if ResolveLike(sp, ap, t) == p { return t; }
    }
    return p;
  }
}
