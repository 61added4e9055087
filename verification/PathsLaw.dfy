/** scriptPathOf is sound: what it returns resolves back to the path it was given, or is that
    path. */
module PathsLaw {
  import opened Basics
  import opened Paths

  // ---- Pieces ----------------------------------------------------------------------------

  predicate Piece(x: string) { '/' !in x }

  /** An element that Clean keeps. */
  predicate Name(x: string) { Piece(x) && x != "" && x != "." && x != ".." }

  predicate Names(st: seq<string>) { forall k :: 0 <= k < |st| ==> Name(st[k]) }

  predicate RelativeAt(st: seq<string>, k: nat)
    requires k < |st|
  {
    Name(st[k]) || (st[k] == ".." && (k > 0 ==> st[k - 1] == ".."))
  }

  /** A cleaned relative path: names after any leading `..`. */
  predicate Relative(st: seq<string>) {
    forall k :: 0 <= k < |st| ==> RelativeAt(st, k)
  }

  lemma {:induction false} SplitPieces(s: string)
    ensures forall x :: x in Split(s) ==> Piece(x)
  {
    if s != "" {
      SplitPieces(s[1..]);
      var r := Split(s[1..]);
      assert r[0] in r && forall x :: x in r[1..] ==> x in r;
    }
  }

  lemma FrontAppend(c: char, r: seq<string>, q: seq<string>)
    requires r != []
    ensures Front(c, r + q) == Front(c, r) + q
  {
    if c != '/' { assert (r + q)[0] == r[0] && (r + q)[1..] == r[1..] + q; }
  }

  lemma {:induction false} SplitAppend(a: string, b: string)
    ensures Split(a + "/" + b) == Split(a) + Split(b)
  {
    hide Front;
    var t := a + "/" + b;
    if a == "" {
      assert t[1..] == b && t[0] == '/';
      assert Front('/', Split(b)) == [""] + Split(b) by { FrontSlash(Split(b)); }
    } else {
      assert t[1..] == a[1..] + "/" + b && t[0] == a[0];
      SplitAppend(a[1..], b);
      FrontAppend(a[0], Split(a[1..]), Split(b));
    }
  }

  lemma FrontSlash(r: seq<string>)
    requires r != []
    ensures Front('/', r) == [""] + r
  {
  }

  lemma {:induction false} SplitPiece(x: string)
    requires Piece(x)
    ensures Split(x) == [x]
  {
    if x != "" {
      assert x[0] in x && Piece(x[1..]);
      SplitPiece(x[1..]);
      assert [x[0]] + x[1..] == x && [x[1..]][1..] == [];
    }
  }

  lemma {:induction false} SplitJoined(ps: seq<string>)
    requires ps != [] && forall k :: 0 <= k < |ps| ==> Piece(ps[k])
    ensures Split(Joined(ps)) == ps
  {
    SplitPiece(ps[0]);
    if |ps| > 1 {
      SplitJoined(ps[1..]);
      SplitAppend(ps[0], Joined(ps[1..]));
      assert ps == [ps[0]] + ps[1..];
    }
  }

  lemma {:induction false} JoinedAppend(a: seq<string>, b: seq<string>)
    requires a != [] && b != []
    ensures Joined(a + b) == Joined(a) + "/" + Joined(b)
  {
    if |a| == 1 {
      assert (a + b)[1..] == b;
    } else {
      assert (a + b)[1..] == a[1..] + b;
      JoinedAppend(a[1..], b);
    }
  }

  // ---- Normalising ---------------------------------------------------------------------------

  lemma {:induction false} NormAppend(rooted: bool, st: seq<string>, a: seq<string>, b: seq<string>)
    ensures Norm(rooted, st, a + b) == Norm(rooted, Norm(rooted, st, a), b)
    decreases |a|
  {
    if a == [] {
      assert a + b == b;
    } else {
      assert (a + b)[1..] == a[1..] + b;
      NormAppend(rooted, Push(rooted, st, a[0]), a[1..], b);
    }
  }

  lemma {:induction false} NormNames(rooted: bool, st: seq<string>, a: seq<string>)
    requires Names(a)
    ensures Norm(rooted, st, a) == st + a
    decreases |a|
  {
    if a == [] {
      assert st + a == st;
    } else {
      assert Names(a[1..]) && st + [a[0]] + a[1..] == st + a;
      NormNames(rooted, st + [a[0]], a[1..]);
    }
  }

  lemma {:induction false} RootedIsNames(st: seq<string>, xs: seq<string>)
    requires Names(st) && forall x :: x in xs ==> Piece(x)
    ensures Names(Norm(true, st, xs))
    decreases |xs|
  {
    if xs != [] {
      assert xs[0] in xs && forall x :: x in xs[1..] ==> x in xs;
      assert Names(Push(true, st, xs[0]));
      RootedIsNames(Push(true, st, xs[0]), xs[1..]);
    }
  }

  lemma PushRelative(st: seq<string>, x: string)
    requires Relative(st) && Piece(x)
    ensures Relative(Push(false, st, x))
  {
    var r := Push(false, st, x);
    forall k | 0 <= k < |r| ensures RelativeAt(r, k) {
      if k < |st| {
        assert RelativeAt(st, k) && r[k] == st[k];
        if k > 0 { assert r[k - 1] == st[k - 1]; }
      }
    }
  }

  lemma {:induction false} FreeIsRelative(st: seq<string>, xs: seq<string>)
    requires Relative(st) && forall x :: x in xs ==> Piece(x)
    ensures Relative(Norm(false, st, xs))
    decreases |xs|
  {
    if xs != [] {
      assert xs[0] in xs && forall x :: x in xs[1..] ==> x in xs;
      PushRelative(st, xs[0]);
      FreeIsRelative(Push(false, st, xs[0]), xs[1..]);
    }
  }

  lemma {:induction false} NormSnoc(rooted: bool, st: seq<string>, xs: seq<string>, x: string)
    ensures Norm(rooted, st, xs + [x]) == Push(rooted, Norm(rooted, st, xs), x)
  {
    NormAppend(rooted, st, xs, [x]);
    var n := Norm(rooted, st, xs);
    assert [x][1..] == [];
    assert Norm(rooted, n, [x]) == Norm(rooted, Push(rooted, n, x), []);
  }

  /** Anchoring a step is a step after anchoring. */
  lemma AnchorStep(base: seq<string>, r: seq<string>, x: string)
    requires Relative(r) && Piece(x)
    ensures Norm(true, base, Push(false, r, x)) == Push(true, Norm(true, base, r), x)
  {
    if x == "" || x == "." {
    } else if x != ".." {
      NormSnoc(true, base, r, x);
    } else if r != [] && r[|r| - 1] != ".." {
      var front, last := r[..|r| - 1], r[|r| - 1];
      assert r == front + [last] && RelativeAt(r, |r| - 1) && Name(last);
      NormSnoc(true, base, front, last);
      var n := Norm(true, base, front);
      assert (n + [last])[..|n|] == n;
    } else {
      NormSnoc(true, base, r, "..");
    }
  }

  /** Cleaning before anchoring changes nothing. */
  lemma {:induction false} AnchorNorm(base: seq<string>, r: seq<string>, xs: seq<string>)
    requires Relative(r) && forall x :: x in xs ==> Piece(x)
    ensures Norm(true, base, Norm(false, r, xs)) == Norm(true, Norm(true, base, r), xs)
    decreases |xs|
  {
    if xs != [] {
      assert xs[0] in xs && forall x :: x in xs[1..] ==> x in xs;
      AnchorStep(base, r, xs[0]);
      PushRelative(r, xs[0]);
      AnchorNorm(base, Push(false, r, xs[0]), xs[1..]);
    }
  }

  // ---- Absolute paths as their names -----------------------------------------------------------

  function Abs(st: seq<string>): string { "/" + Joined(st) }

  predicate CleanAbs(s: string) { IsAbs(s) && Clean(s) == s }

  /** The names of an absolute path. */
  function NamesOf(s: string): seq<string> {
    Norm(true, [], Split(s))
  }

  lemma NamesOfAre(s: string)
    ensures Names(NamesOf(s))
  {
    SplitPieces(s);
    RootedIsNames([], Split(s));
  }

  lemma SplitAbs(st: seq<string>)
    requires Names(st)
    ensures Split(Abs(st)) == [""] + (if st == [] then [""] else st)
    ensures NamesOf(Abs(st)) == st && CleanAbs(Abs(st))
  {
    assert Abs(st) == "" + "/" + Joined(st);
    SplitAppend("", Joined(st));
    if st != [] { SplitJoined(st); }
    var tail := if st == [] then [""] else st;
    assert ([""] + tail)[1..] == tail;
    if st != [] {
      NormNames(true, [], st);
      assert [] + st == st;
    } else {
      assert tail[1..] == [];
    }
    assert NamesOf(Abs(st)) == Norm(true, [], tail) == st;
  }

  lemma CleanIsAbs(s: string)
    requires CleanAbs(s)
    ensures s == Abs(NamesOf(s)) && Names(NamesOf(s))
  {
    NamesOfAre(s);
  }

  /** The names a spelling resolves to. */
  function Resolved(cwd: string, sp: string): seq<string> {
    Norm(true, if IsAbs(sp) then [] else NamesOf(cwd), Split(sp))
  }

  lemma JoinClean(cwd: string, t: string)
    requires CleanAbs(cwd)
    ensures Join(cwd, t) == Abs(Norm(true, NamesOf(cwd), Split(t)))
  {
    var base := NamesOf(cwd);
    CleanIsAbs(cwd);
    if t == "" {
      assert Norm(true, base, [""]) == base by { assert [""][1..] == []; }
    } else {
      SplitAppend(cwd, t);
      NormAppend(true, [], Split(cwd), Split(t));
    }
  }

  lemma ResolvedNames(cwd: string, sp: string)
    ensures Names(Resolved(cwd, sp))
  {
    SplitPieces(sp);
    NamesOfAre(cwd);
    RootedIsNames(if IsAbs(sp) then [] else NamesOf(cwd), Split(sp));
  }

  /** fsPath, in terms of names. */
  lemma FsPathIs(cwd: string, sp: string)
    requires CleanAbs(cwd)
    ensures FsPath(cwd, sp) == Abs(Resolved(cwd, sp)) && CleanAbs(FsPath(cwd, sp))
    ensures NamesOf(FsPath(cwd, sp)) == Resolved(cwd, sp) && Names(Resolved(cwd, sp))
  {
    ResolvedNames(cwd, sp);
    SplitAbs(Resolved(cwd, sp));
    if !IsAbs(sp) { JoinClean(cwd, sp); }
  }

  // ---- Below the resolved path ------------------------------------------------------------------

  lemma SplitOfAbs(st: seq<string>)
    requires Names(st)
    ensures Split(Abs(st))[1..] == if st == [] then [""] else st
  {
    SplitAbs(st);
  }

  /** No name is empty. */
  lemma NotEmptyPiece(st: seq<string>, dir: seq<string>, more: seq<string>)
    requires Names(dir) && dir != [] && more != [] && (if st == [] then [""] else st) == dir + more
    ensures st == dir + more
  {
    assert Name(dir[0]) && (dir + more)[0] == dir[0];
  }

  lemma AbsSplits(dir: seq<string>, st: seq<string>, rest: string)
    requires Names(dir) && Names(st) && dir != [] && Abs(st) == Abs(dir) + "/" + rest
    ensures st == dir + Split(rest)
  {
    hide Abs, Split, Names;
    SplitOfAbs(dir);
    SplitOfAbs(st);
    SplitAppend(Abs(dir), rest);
    assert (Split(Abs(dir)) + Split(rest))[1..] == Split(Abs(dir))[1..] + Split(rest);
    NotEmptyPiece(st, dir, Split(rest));
  }

  lemma RootSplits(st: seq<string>, rest: string)
    requires Names(st) && Abs(st) == "/" + rest && rest != ""
    ensures st == Split(rest)
  {
    assert |Abs([])| == 1 && |Abs(st)| > 1;
    SplitOfAbs(st);
    SplitAppend("", rest);
    assert "" + "/" + rest == "/" + rest;
    assert Split(Abs(st))[1..] == Split(rest) by { assert ([""] + Split(rest))[1..] == Split(rest); }
  }

  lemma EndOfAbs(dir: seq<string>)
    requires Names(dir) && dir != []
    ensures !EndsWithSlash(Abs(dir))
  {
    JoinedEnds(dir);
  }

  lemma {:induction false} JoinedEnds(ps: seq<string>)
    requires Names(ps) && ps != []
    ensures Joined(ps) != "" && Joined(ps)[|Joined(ps)| - 1] != '/'
  {
    assert Name(ps[0]);
    if |ps| == 1 {
      assert ps[0][|ps[0]| - 1] in ps[0];
    } else {
      forall k | 0 <= k < |ps[1..]| ensures Name(ps[1..][k]) { assert ps[1..][k] == ps[k + 1]; }
      JoinedEnds(ps[1..]);
    }
  }

  /** A remainder below a directory is the names that follow the directory's. */
  lemma CutIs(dir: seq<string>, st: seq<string>)
    requires Names(dir) && Names(st) && CutPathPrefix(Abs(st), Abs(dir)).Some?
    ensures st == dir + Split(CutPathPrefix(Abs(st), Abs(dir)).value)
  {
    var rest := CutPathPrefix(Abs(st), Abs(dir)).value;
    if dir == [] {
      assert Abs(dir) == "/" && Abs(st) == "/" + rest;
      RootSplits(st, rest);
      assert [] + Split(rest) == Split(rest);
    } else {
      EndOfAbs(dir);
      assert Abs(st) == Abs(dir) + "/" + rest;
      AbsSplits(dir, st, rest);
    }
  }

  lemma NamesTail(a: seq<string>, b: seq<string>)
    requires Names(a + b)
    ensures Names(a) && Names(b)
  {
    forall k | 0 <= k < |a| ensures Name(a[k]) { assert (a + b)[k] == a[k]; }
    forall k | 0 <= k < |b| ensures Name(b[k]) { assert (a + b)[|a| + k] == b[k]; }
  }

  /** A cleaned spelling resolves to what the spelling does. */
  lemma CleanResolves(cwd: string, t: string)
    ensures t != "" ==> Resolved(cwd, Clean(t)) == Resolved(cwd, t) && (IsAbs(Clean(t)) <==> IsAbs(t))
    ensures !IsAbs(t) ==> Norm(true, NamesOf(cwd), Split(Clean(t))) == Resolved(cwd, t)
  {
    SplitPieces(t);
    if IsAbs(t) {
      RootedIsNames([], Split(t));
      SplitAbs(Norm(true, [], Split(t)));
    } else {
      var st := Norm(false, [], Split(t));
      FreeIsRelative([], Split(t));
      AnchorNorm(NamesOf(cwd), [], Split(t));
      if st == [] {
        assert Split(".") == ["."] by { SplitPiece("."); }
        assert ["."][1..] == [];
      } else {
        RelativePieces(st);
        SplitJoined(st);
        RelativeText(st);
      }
    }
  }

  lemma RelativePieces(st: seq<string>)
    requires Relative(st)
    ensures forall k :: 0 <= k < |st| ==> Piece(st[k]) && st[k] != ""
  {
    forall k | 0 <= k < |st| ensures Piece(st[k]) && st[k] != "" { assert RelativeAt(st, k); }
  }

  lemma RelativeText(st: seq<string>)
    requires Relative(st) && st != []
    ensures Joined(st) != "" && !IsAbs(Joined(st))
  {
    RelativePieces(st);
    assert st[0][0] in st[0];
    assert Joined(st)[0] == st[0][0];
  }

  /** A path below the resolved one is spelled below the spelling, and resolves back. */
  lemma BelowResolves(cwd: string, sp: string, p: string)
    requires CleanAbs(cwd) && CleanAbs(p) && CutPathPrefix(p, FsPath(cwd, sp)).Some?
    ensures FsPath(cwd, Join(sp, CutPathPrefix(p, FsPath(cwd, sp)).value)) == p
  {
    hide Clean, CutPathPrefix, NamesOf, Abs;
    var ap, dir, st := FsPath(cwd, sp), Resolved(cwd, sp), NamesOf(p);
    var rest := CutPathPrefix(p, ap).value;
    FsPathIs(cwd, sp);
    CleanIsAbs(p);
    CutIs(dir, st);
    NamesTail(dir, Split(rest));
    JoinResolves(cwd, sp, rest);
    FsPathIs(cwd, Join(sp, rest));
  }

  lemma JoinResolves(cwd: string, sp: string, rest: string)
    requires CleanAbs(cwd) && Names(Split(rest))
    ensures Resolved(cwd, Join(sp, rest)) == Resolved(cwd, sp) + Split(rest)
  {
    hide Clean, NamesOf;
    var base := if IsAbs(sp) then [] else NamesOf(cwd);
    RestIsRelative(rest);
    NormNames(true, Resolved(cwd, sp), Split(rest));
    if sp == "" {
      assert [""][1..] == [];
      CleanResolves(cwd, rest);
    } else {
      var t := sp + "/" + rest;
      SplitAppend(sp, rest);
      NormAppend(true, base, Split(sp), Split(rest));
      CleanResolves(cwd, t);
    }
  }

  lemma RestIsRelative(rest: string)
    requires Names(Split(rest))
    ensures rest != "" && !IsAbs(rest)
  {
    assert Name(Split(rest)[0]);
    assert rest != "";
    FrontSlash(Split(rest[1..]));
  }

  // ---- Above the resolved path --------------------------------------------------------------------

  lemma {:induction false} TrimIsPrefix(s: string)
    ensures TrimSlashes(s) <= s
    ensures TrimSlashes(s) == "" && s != "" ==> s[0] == '/'
  {
    if EndsWithSlash(s) { TrimIsPrefix(s[..|s| - 1]); }
  }

  lemma {:induction false} BeforeIsPrefix(s: string)
    ensures BeforeSlash(s).Some? ==> BeforeSlash(s).value + "/" <= s
  {
    if s != "" && s[|s| - 1] != '/' { BeforeIsPrefix(s[..|s| - 1]); }
  }

  lemma DropKeepsKind(t: string)
    requires DropElement(t).Some?
    ensures DropElement(t).value != "" && (IsAbs(DropElement(t).value) <==> IsAbs(t))
  {
    TrimIsPrefix(t);
    var u := TrimSlashes(t);
    BeforeIsPrefix(u);
    var b := BeforeSlash(u).value;
    assert (b + "/")[0] == u[0] == t[0];
  }

  lemma {:induction false} DropsKeepKind(t: string, n: nat)
    requires n > 0 && DropElements(t, n).Some?
    ensures DropElements(t, n).value != "" && (IsAbs(DropElements(t, n).value) <==> IsAbs(t))
    decreases n
  {
    DropKeepsKind(t);
    if n > 1 { DropsKeepKind(DropElement(t).value, n - 1); }
  }

  lemma {:induction false} NoLeadingUp(st: seq<string>, k: nat)
    requires Relative(st) && k < |st| && st[0] != ".."
    ensures Name(st[k])
    decreases k
  {
    assert RelativeAt(st, k);
    if k > 0 { NoLeadingUp(st, k - 1); }
  }

  lemma UpLeads(st: seq<string>)
    requires st != [] && st[0] == ".."
    ensures ".." <= Joined(st)
  {
    if |st| > 1 { assert Joined(st) == ".." + ("/" + Joined(st[1..])); }
  }

  /** What Clean keeps of a relative spelling. */
  lemma CleanRelative(sp: string) returns (st: seq<string>)
    requires !IsAbs(sp)
    ensures st == Norm(false, [], Split(sp)) && Relative(st) && Clean(sp) == (if st == [] then "." else Joined(st))
    ensures Clean(sp) == "." ==> st == []
    ensures st != [] && !(".." <= Clean(sp)) ==> Names(st)
  {
    st := Norm(false, [], Split(sp));
    SplitPieces(sp);
    FreeIsRelative([], Split(sp));
    if st != [] {
      RelativePieces(st);
      SplitJoined(st);
      assert RelativeAt(st, 0);
      if Joined(st) == "." { SplitPiece("."); }
      if st[0] == ".." {
        UpLeads(st);
      } else {
        forall k | 0 <= k < |st| ensures Name(st[k]) { NoLeadingUp(st, k); }
      }
    }
  }

  lemma ResolvedByClean(cwd: string, sp: string)
    requires !IsAbs(sp)
    ensures Resolved(cwd, sp) == Norm(true, NamesOf(cwd), Norm(false, [], Split(sp)))
  {
    SplitPieces(sp);
    AnchorNorm(NamesOf(cwd), [], Split(sp));
  }

  lemma AbsAppend(a: seq<string>, b: seq<string>)
    requires b != []
    ensures Abs(a + b) == (if a == [] then "" else Abs(a)) + "/" + Joined(b)
  {
    if a == [] { assert a + b == b; } else { JoinedAppend(a, b); }
  }

  /** Below the working directory, cutting the spelling off the resolved path leaves the working
      directory; nothing, where that is the root. */
  lemma BaseOf(cwd: string, sp: string, st: seq<string>)
    requires CleanAbs(cwd) && !IsAbs(sp) && st == Norm(false, [], Split(sp)) && st != [] && Names(st)
    ensures CutSuffix(FsPath(cwd, sp), "/" + Joined(st)) == Some(if NamesOf(cwd) == [] then "" else cwd)
  {
    hide NamesOf, Names, CutSuffix, Split, Joined, FsPath;
    var base := NamesOf(cwd);
    FsPathIs(cwd, sp);
    CleanIsAbs(cwd);
    ResolvedByClean(cwd, sp);
    NormNames(true, base, st);
    AbsAppend(base, st);
    var front := if base == [] then "" else cwd;
    assert front + "/" + Joined(st) == front + ("/" + Joined(st));
    CutSuffixIs(front, "/" + Joined(st));
  }

  /** A spelling that comes to nothing is the working directory. */
  lemma NothingIsBase(cwd: string, sp: string)
    requires CleanAbs(cwd) && !IsAbs(sp) && Norm(false, [], Split(sp)) == []
    ensures FsPath(cwd, sp) == cwd
  {
    hide NamesOf, Split, FsPath;
    FsPathIs(cwd, sp);
    CleanIsAbs(cwd);
    ResolvedByClean(cwd, sp);
  }

  lemma JoinIsFsPath(cwd: string, t: string)
    requires CleanAbs(cwd) && !IsAbs(t)
    ensures Join(cwd, t) == FsPath(cwd, t)
  {
    hide FsPath;
    JoinClean(cwd, t);
    FsPathIs(cwd, t);
  }

  /** The base that resolveLike recovers is the working directory, or resolves to no absolute
      path. */
  lemma LikeResolves(cwd: string, sp: string, t: string, p: string)
    requires CleanAbs(cwd) && CleanAbs(p) && t != "" && (IsAbs(t) <==> IsAbs(sp))
    requires ResolveLike(sp, FsPath(cwd, sp), t) == p
    ensures FsPath(cwd, t) == p
  {
    if IsAbs(t) {
      assert FsPath(cwd, t) == Clean(t);
    } else {
      hide NamesOf, Names, CutSuffix, Clean, FsPath, Split, Joined;
      var st := CleanRelative(sp);
      JoinIsFsPath(cwd, t);
      if st == [] {
        NothingIsBase(cwd, sp);
      } else {
        BaseOf(cwd, sp, st);
        CleanStaysRelative(t);
      }
    }
  }

  lemma CutSuffixIs(a: string, b: string)
    ensures CutSuffix(a + b, b) == Some(a)
  {
  }

  lemma CleanStaysRelative(t: string)
    requires t != "" && !IsAbs(t)
    ensures !IsAbs(Clean(t))
  {
    CleanResolves("", t);
  }

  /** Mapping a host path back is sound: the result is the path itself or resolves to it. */
  lemma MapBackSound(cwd: string, sp: string, p: string)
    requires CleanAbs(cwd) && CleanAbs(p)
    ensures var r := ScriptPathOf(sp, FsPath(cwd, sp), p);
      r == p || FsPath(cwd, r) == p
  {
    hide Clean, ResolveLike, FsPath, CutPathPrefix, DropElements, TrimSlashes;
    var ap := FsPath(cwd, sp);
    if p != ap {
      if CutPathPrefix(p, ap).Some? {
        BelowResolves(cwd, sp, p);
      } else if CutPathPrefix(ap, p).Some? {
        var n := |Split(CutPathPrefix(ap, p).value)|;
        var t := DropElements(sp, n);
        if t.Some? {
          DropsKeepKind(sp, n);
          TrimIsPrefix(t.value);
          var u := OrRoot(TrimSlashes(t.value));
          assert u != "" && (IsAbs(u) <==> IsAbs(sp));
          if ResolveLike(sp, ap, u) == p { LikeResolves(cwd, sp, u, p); }
        }
      }
    }
  }

  // ---- The spelling is recovered ----------------------------------------------------------------------

  lemma {:induction false} BeforeLast(a: string, x: string)
    requires Piece(x)
    ensures BeforeSlash(a + "/" + x) == Some(a)
    decreases |x|
  {
    var t := a + "/" + x;
    if x == "" {
      assert t[..|t| - 1] == a;
    } else {
      assert t[|t| - 1] == x[|x| - 1] && x[|x| - 1] in x;
      var y := x[..|x| - 1];
      assert t[..|t| - 1] == a + "/" + y;
      assert Piece(y);
      BeforeLast(a, y);
    }
  }

  lemma DropLastName(ps: seq<string>)
    requires Names(ps) && |ps| > 1
    ensures DropElement(Joined(ps)) == Some(Joined(ps[..|ps| - 1]))
  {
    hide Names, Joined, BeforeSlash, Name;
    var front, last := ps[..|ps| - 1], ps[|ps| - 1];
    assert ps == front + [last];
    NamesTail(front, [last]);
    JoinedAppend(front, [last]);
    OneJoined(last);
    JoinedEnds(ps);
    JoinedEnds(front);
    BeforeLast(Joined(front), last);
  }

  lemma OneJoined(x: string)
    ensures Joined([x]) == x && (Names([x]) ==> Piece(x))
  {
    if Names([x]) { assert Name([x][0]); }
  }

  lemma {:induction false} DropNames(ps: seq<string>, n: nat)
    requires Names(ps) && n < |ps|
    ensures DropElements(Joined(ps), n) == Some(Joined(ps[..|ps| - n]))
    decreases n
  {
    hide DropElement;
    if n == 0 {
      assert ps[..|ps|] == ps;
    } else {
      var front := ps[..|ps| - 1];
      DropLastName(ps);
      assert ps == front + ps[|ps| - 1..];
      NamesTail(front, ps[|ps| - 1..]);
      DropNames(front, n - 1);
      assert front[..|front| - (n - 1)] == ps[..|ps| - n];
    }
  }

  /** The spelling's base directory can be told from the resolved path. */
  predicate Recovered(cwd: string, names: seq<string>)
    requires names != []
  {
    cwd != "/" && !(".." <= names[0])
  }

  /** Above the resolved path the answer is the shortened spelling, if that resolves back. */
  lemma ScriptPathAbove(sp: string, ap: string, p: string, rest: string, u: string)
    requires p != ap && CutPathPrefix(p, ap).None? && CutPathPrefix(ap, p) == Some(rest)
    requires DropElements(sp, |Split(rest)|) == Some(u) && OrRoot(TrimSlashes(u)) == u
    ensures ScriptPathOf(sp, ap, p) == if ResolveLike(sp, ap, u) == p then u else p
  {
    hide CutPathPrefix, DropElements, ResolveLike, OrRoot, TrimSlashes, Split;
  }

  lemma AncestorAbove(cwd: string, head: seq<string>, tail: seq<string>)
    requires CleanAbs(cwd) && Names(head) && Names(tail) && Names(head + tail) && head != [] && tail != []
    ensures var sp, p := Joined(head + tail), Abs(NamesOf(cwd) + head);
      ScriptPathOf(sp, FsPath(cwd, sp), p)
        == if ResolveLike(sp, FsPath(cwd, sp), Joined(head)) == p then Joined(head) else p
  {
    hide NamesOf, Names, Clean, FsPath, ResolveLike, CutPathPrefix, DropElements, TrimSlashes, Abs, OrRoot, Joined;
    hide ScriptPathOf, Split;
    var names, base := head + tail, NamesOf(cwd);
    var sp, dir := Joined(names), base + head;
    CleanIsAbs(cwd);
    RelativeResolves(cwd, names);
    assert base + names == dir + tail;
    NamesConcat(base, head);
    CutTail(dir, tail);
    DropNames(names, |tail|);
    assert names[..|names| - |tail|] == head;
    TrimNames(head);
    ScriptPathAbove(sp, Abs(dir + tail), Abs(dir), Joined(tail), Joined(head));
  }

  /** An ancestor inside a clean relative spelling is spelled as that prefix of it exactly when the
      working directory is not the root and the spelling does not start with two dots; else it is
      the host path. */
  lemma AncestorSpelled(cwd: string, names: seq<string>, k: nat)
    requires CleanAbs(cwd) && Names(names) && 0 < k < |names|
    ensures var p := Abs(NamesOf(cwd) + names[..k]);
      var r := ScriptPathOf(Joined(names), FsPath(cwd, Joined(names)), p);
      r == (if Recovered(cwd, names) then Joined(names[..k]) else p)
        && (r == Joined(names[..k]) <==> Recovered(cwd, names))
  {
    hide NamesOf, Names, Clean, FsPath, ResolveLike, Abs, ScriptPathOf, Joined;
    var head, tail := names[..k], names[k..];
    assert names == head + tail;
    NamesTail(head, tail);
    RelativeResolves(cwd, head);
    AncestorAbove(cwd, head, tail);
    AbsIsAbs(NamesOf(cwd) + head);
    if Recovered(cwd, names) { LikeSpelled(cwd, names, head); } else { LikeNot(cwd, names, head); }
  }

  lemma AbsIsAbs(st: seq<string>)
    ensures IsAbs(Abs(st))
  {
  }

  lemma NamesConcat(a: seq<string>, b: seq<string>)
    requires Names(a) && Names(b)
    ensures Names(a + b)
  {
  }

  /** A clean relative spelling resolves below the working directory. */
  lemma RelativeResolves(cwd: string, names: seq<string>)
    requires CleanAbs(cwd) && Names(names) && names != []
    ensures FsPath(cwd, Joined(names)) == Abs(NamesOf(cwd) + names) && Joined(names) != "" && !IsAbs(Joined(names))
  {
    hide Clean, NamesOf, FsPath;
    FsPathIs(cwd, Joined(names));
    PiecesOfNames(names);
    RelativeText(names);
    NormNames(true, NamesOf(cwd), names);
  }

  lemma CutBelow(s: string, rest: string)
    requires !EndsWithSlash(s) && rest != ""
    ensures CutPathPrefix(s + "/" + rest, s) == Some(rest) && CutPathPrefix(s, s + "/" + rest).None?
    ensures s != s + "/" + rest
  {
    var t := s + "/" + rest;
    assert t[|s|..] == "/" + rest;
    assert ("/" + rest)[1..] == rest;
    assert |t| > |s|;
  }

  lemma PiecesOfNames(ps: seq<string>)
    requires Names(ps) && ps != []
    ensures Split(Joined(ps)) == ps && (forall k :: 0 <= k < |ps| ==> Piece(ps[k])) && Relative(ps)
  {
    forall k | 0 <= k < |ps| ensures Piece(ps[k]) && RelativeAt(ps, k) { assert Name(ps[k]); }
    SplitJoined(ps);
  }

  lemma CutTail(dir: seq<string>, tail: seq<string>)
    requires Names(dir) && Names(tail) && dir != [] && tail != []
    ensures CutPathPrefix(Abs(dir + tail), Abs(dir)) == Some(Joined(tail))
    ensures CutPathPrefix(Abs(dir), Abs(dir + tail)).None?
    ensures Abs(dir) != Abs(dir + tail) && Split(Joined(tail)) == tail
  {
    hide Abs, Joined, CutPathPrefix, EndsWithSlash, Names, Split;
    AbsAppend(dir, tail);
    EndOfAbs(dir);
    JoinedEnds(tail);
    CutBelow(Abs(dir), Joined(tail));
    PiecesOfNames(tail);
  }

  lemma TrimNames(head: seq<string>)
    requires Names(head) && head != []
    ensures OrRoot(TrimSlashes(Joined(head))) == Joined(head)
  {
    JoinedEnds(head);
  }

  lemma LikeSpelled(cwd: string, names: seq<string>, head: seq<string>)
    requires CleanAbs(cwd) && cwd != "/" && Names(names) && names != [] && Names(head) && head != []
    requires !(".." <= names[0])
    ensures ResolveLike(Joined(names), FsPath(cwd, Joined(names)), Joined(head)) == Abs(NamesOf(cwd) + head)
  {
    hide Names, Clean, FsPath, Joined, Split, CutSuffix, Join;
    var sp, t := Joined(names), Joined(head);
    RelativeResolves(cwd, names);
    RelativeResolves(cwd, head);
    var st := CleanRelative(sp);
    NamesStay(names);
    JoinNames(cwd, head);
    SuffixOfAbs(cwd, names);
    NotUp(names);
  }

  lemma JoinNames(cwd: string, head: seq<string>)
    requires CleanAbs(cwd) && Names(head) && head != []
    ensures Join(cwd, Joined(head)) == Abs(NamesOf(cwd) + head)
  {
    hide NamesOf, Join, Joined, Split;
    JoinClean(cwd, Joined(head));
    PiecesOfNames(head);
    NormNames(true, NamesOf(cwd), head);
  }

  lemma NothingJoined()
    ensures Joined([]) == ""
  {
  }

  lemma SuffixOfAbs(cwd: string, names: seq<string>)
    requires CleanAbs(cwd) && cwd != "/" && Names(names) && names != []
    ensures CutSuffix(Abs(NamesOf(cwd) + names), "/" + Joined(names)) == Some(cwd)
  {
    hide NamesOf, Names, Joined, CutSuffix, Clean;
    assert Abs([]) == "/" by { NothingJoined(); }
    CleanIsAbs(cwd);
    AbsAppend(NamesOf(cwd), names);
    CutSuffixIs(cwd, "/" + Joined(names));
    assert cwd + "/" + Joined(names) == cwd + ("/" + Joined(names));
  }

  lemma NotUp(names: seq<string>)
    requires Names(names) && names != []
    ensures ".." <= Joined(names) ==> ".." <= names[0]
    ensures Joined(names) != "."
  {
    PiecesOfNames(names);
    SplitPiece(".");
    assert Name(names[0]);
  }

  lemma NamesStay(names: seq<string>)
    requires Names(names) && names != []
    ensures Norm(false, [], Split(Joined(names))) == names
  {
    PiecesOfNames(names);
    NormNames(false, [], names);
    assert [] + names == names;
  }

  /** Otherwise resolveLike gives no absolute path. */
  lemma LikeNot(cwd: string, names: seq<string>, head: seq<string>)
    requires CleanAbs(cwd) && Names(names) && names != [] && Names(head) && head != [] && !Recovered(cwd, names)
    ensures !IsAbs(ResolveLike(Joined(names), FsPath(cwd, Joined(names)), Joined(head)))
  {
    hide Names, Clean, FsPath, Joined, Split, CutSuffix;
    var sp, t := Joined(names), Joined(head);
    RelativeResolves(cwd, names);
    RelativeResolves(cwd, head);
    var st := CleanRelative(sp);
    NamesStay(names);
    NotUp(names);
    if ".." <= names[0] {
      UpFirst(names);
    } else {
      CleanIsAbs(cwd);
      RootBase(cwd, names);
      CleanStaysRelative(t);
    }
  }

  lemma UpFirst(names: seq<string>)
    requires names != [] && ".." <= names[0]
    ensures ".." <= Joined(names)
  {
    if |names| > 1 { assert Joined(names) == names[0] + ("/" + Joined(names[1..])); }
  }

  /** Below the root, cutting the spelling off the resolved path leaves nothing. */
  lemma RootBase(cwd: string, names: seq<string>)
    requires CleanAbs(cwd) && cwd == "/" && Names(names) && names != []
    ensures CutSuffix(FsPath(cwd, Joined(names)), "/" + Joined(names)) == Some("")
  {
    hide Names, Clean, FsPath, Joined, CutSuffix;
    RelativeResolves(cwd, names);
    CutSuffixIs("", "/" + Joined(names));
    RootNames(names);
    assert "" + ("/" + Joined(names)) == "/" + Joined(names);
  }

  lemma RootNames(names: seq<string>)
    requires names != []
    ensures Abs(NamesOf("/") + names) == "/" + Joined(names)
  {
    assert NamesOf("/") == [];
    assert [] + names == names;
    AbsAppend([], names);
  }

  // ---- Where the path lies decides ----------------------------------------------------------------------

  lemma CutDown(dir: seq<string>, tail: seq<string>)
    requires Names(dir) && Names(tail) && tail != []
    ensures CutPathPrefix(Abs(dir + tail), Abs(dir)) == Some(Joined(tail))
  {
    if dir == [] {
      assert dir + tail == tail && Abs(dir) == "/" && Abs(tail) == "/" + Joined(tail);
      JoinedEnds(tail);
      assert Abs(tail)[1..] == Joined(tail);
    } else {
      CutTail(dir, tail);
    }
  }

  lemma JoinIs(sp: string, rest: string)
    requires rest != ""
    ensures Join(sp, rest) == Clean(if sp == "" then rest else sp + "/" + rest)
  {
  }

  /** Mapping back is decided by where the path lies: the resolved path comes back as the spelling itself;
      a path below it as the spelling followed by the names that lead down, cleaned, absolute exactly if
      the spelling is, and resolving to the path; one that is neither below nor above as it is. */
  lemma MapBackIs(cwd: string, sp: string, p: string)
    requires CleanAbs(cwd) && CleanAbs(p)
    ensures var r, dir, st := ScriptPathOf(sp, FsPath(cwd, sp), p), Resolved(cwd, sp), NamesOf(p);
      && (st == dir ==> r == sp)
      && (|dir| < |st| && st[..|dir|] == dir ==>
            && r == Clean(if sp == "" then Joined(st[|dir|..]) else sp + "/" + Joined(st[|dir|..]))
            && FsPath(cwd, r) == p && (sp != "" ==> (IsAbs(r) <==> IsAbs(sp))))
      && (!(dir <= st) && !(st <= dir) ==> r == p)
  {
    hide Clean, CutPathPrefix, NamesOf, Abs, FsPath, Joined, DropElements, ResolveLike, Names, Join, Resolved;
    var ap, dir, st := FsPath(cwd, sp), Resolved(cwd, sp), NamesOf(p);
    FsPathIs(cwd, sp);
    CleanIsAbs(p);
    if |dir| < |st| && st[..|dir|] == dir {
      var tail := st[|dir|..];
      assert st == dir + tail;
      NamesTail(dir, tail);
      CutDown(dir, tail);
      BelowResolves(cwd, sp, p);
      JoinedEnds(tail);
      JoinIs(sp, Joined(tail));
      if sp != "" { CleanKind(sp + "/" + Joined(tail)); }
    }
    if !(dir <= st) && !(st <= dir) {
      if CutPathPrefix(p, ap).Some? { CutIs(dir, st); }
      if CutPathPrefix(ap, p).Some? { CutIs(st, dir); }
    }
  }

  lemma CleanKind(t: string)
    requires t != ""
    ensures IsAbs(Clean(t)) <==> IsAbs(t)
  {
    hide Clean;
    CleanResolves("/", t);
  }
}
