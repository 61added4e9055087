/** parsePackageFiles: files are parsed in private file sets whose next base is a reserved slot,
    and land where a one-by-one parse would have put them. */
module ParseFiles {
  import opened Basics
  import Each

  /** A file occupies the positions from `base` to `base + size`. */
  datatype File = File(base: nat, size: nat)

  predicate Disjoint(a: File, b: File) {
    a.base + a.size < b.base || b.base + b.size < a.base
  }

  predicate AllDisjoint(fs: seq<File>) {
    forall i, j :: 0 <= i < j < |fs| ==> Disjoint(fs[i], fs[j])
  }

  predicate Below(fs: seq<File>, base: nat) {
    forall f :: f in fs ==> 1 <= f.base && f.base + f.size < base
  }

  /** The files but for the first that is `f`. */
  function Without(fs: seq<File>, f: File): seq<File> {
    if fs == [] then [] else if fs[0] == f then fs[1..] else [fs[0]] + Without(fs[1..], f)
  }

  lemma {:induction false} WithoutAt(a: seq<File>, f: File, b: seq<File>)
    requires f !in a
    ensures Without(a + [f] + b, f) == a + b
    decreases |a|
  {
    if a == [] {
      assert a + [f] + b == [f] + b && ([f] + b)[1..] == b && a + b == b;
    } else {
      assert (a + [f] + b)[1..] == a[1..] + [f] + b;
      WithoutAt(a[1..], f, b);
    }
  }

  /** A token.FileSet: the next base and the files. */
  class FileSet {
    var base: nat
    var files: seq<File>

    ghost predicate Valid()
      reads this
    {
      1 <= base && AllDisjoint(files) && Below(files, base)
    }

    constructor ()
      ensures base == 1 && files == [] && Valid()
    {
      base, files := 1, [];
    }

    method AddFile(size: nat) returns (f: File)
      requires Valid()
      modifies this
      ensures f == File(old(base), size) && base == old(base) + size + 1 && files == old(files) + [f] && Valid()
    {
      f := File(base, size);
      files, base := files + [f], base + size + 1;
    }

    /** The file leaves; the next base stays. */
    method RemoveFile(f: File)
      requires Valid() && f in files
      modifies this`files
      ensures Valid() && files == Without(old(files), f)
    {
      var i := 0;
      while files[i] != f
        invariant 0 <= i < |files| && f !in files[..i]
        decreases |files| - i
      {
        assert files == files[..i + 1] + files[i + 1..];
        i := i + 1;
      }
      WithoutAt(files[..i], f, files[i + 1..]);
      assert files == files[..i] + [f] + files[i + 1..];
      files := files[..i] + files[i + 1..];
    }

    /** The real set refuses files that overlap others. */
    method AddExistingFiles(own: seq<File>)
      requires Valid() && AllDisjoint(files + own) && Below(files + own, base)
      modifies this`files
      ensures Valid() && files == old(files) + own
    {
      files := files + own;
    }
  }

  // ---- A one-by-one parse ------------------------------------------------------------------

  /** Where files of these sizes land, parsed one after the other from `base` on. */
  function Bases(base: nat, sizes: seq<nat>): (r: seq<nat>)
    ensures |r| == |sizes|
    decreases |sizes|
  {
    if sizes == [] then [] else [base] + Bases(base + sizes[0] + 1, sizes[1..])
  }

  function Total(sizes: seq<nat>): nat {
    if sizes == [] then 0 else sizes[0] + 1 + Total(sizes[1..])
  }

  function Landed(base: nat, sizes: seq<nat>): (r: seq<File>)
    ensures |r| == |sizes|
    decreases |sizes|
  {
    if sizes == [] then [] else [File(base, sizes[0])] + Landed(base + sizes[0] + 1, sizes[1..])
  }

  /** What parsing file `i` at a base reports, if it fails. */
  type Parser<E> = (nat, nat) -> Option<E>

  datatype Outcome<E> = Parsed(files: seq<File>) | Failed(i: nat, err: E)

  /** The first failing file, in order. */
  function FirstFailure<E>(parse: Parser<E>, bases: seq<nat>, i: nat): Option<(nat, E)>
    requires i <= |bases|
    decreases |bases| - i
  {
    if i == |bases| then None
    else if parse(i, bases[i]).Some? then Some((i, parse(i, bases[i]).value))
    else FirstFailure(parse, bases, i + 1)
  }

  /** What the sequential parse gives from `base` on. */
  function Sequential<E>(parse: Parser<E>, base: nat, sizes: seq<nat>): Outcome<E> {
    var f := FirstFailure(parse, Bases(base, sizes), 0);
    if f.Some? then Failed(f.value.0, f.value.1) else Parsed(Landed(base, sizes))
  }

  lemma {:induction false} BasesAt(base: nat, sizes: seq<nat>, i: nat)
    requires i < |sizes|
    ensures Bases(base, sizes)[i] == base + Total(sizes[..i])
    ensures Landed(base, sizes)[i] == File(Bases(base, sizes)[i], sizes[i])
    decreases i
  {
    if i > 0 {
      BasesAt(base + sizes[0] + 1, sizes[1..], i - 1);
      assert sizes[1..][..i - 1] == sizes[..i][1..];
    }
  }

  lemma {:induction false} TotalSnoc(sizes: seq<nat>, i: nat)
    requires i < |sizes|
    ensures Total(sizes[..i + 1]) == Total(sizes[..i]) + sizes[i] + 1
    decreases i
  {
    if i == 0 {
      assert sizes[..1] == [sizes[0]] && sizes[..0] == [] && [sizes[0]][1..] == [];
    } else {
      TotalSnoc(sizes[1..], i - 1);
      assert sizes[..i + 1][1..] == sizes[1..][..i] && sizes[..i][1..] == sizes[1..][..i - 1];
    }
  }

  lemma {:induction false} LandedRange(base: nat, sizes: seq<nat>)
    ensures forall f :: f in Landed(base, sizes) ==> base <= f.base && f.base + f.size < base + Total(sizes)
    decreases |sizes|
  {
    if sizes != [] { LandedRange(base + sizes[0] + 1, sizes[1..]); }
  }

  lemma ConsDisjoint(f: File, fs: seq<File>)
    requires AllDisjoint(fs) && forall g :: g in fs ==> f.base + f.size < g.base
    ensures AllDisjoint([f] + fs)
  {
    var all := [f] + fs;
    forall i, j | 0 <= i < j < |all| ensures Disjoint(all[i], all[j]) {
      assert all[j] == fs[j - 1] && fs[j - 1] in fs;
      if i > 0 { assert all[i] == fs[i - 1]; }
    }
  }

  lemma {:induction false} LandedDisjoint(base: nat, sizes: seq<nat>)
    ensures AllDisjoint(Landed(base, sizes))
    decreases |sizes|
  {
    hide AllDisjoint;
    if sizes == [] {
      assert AllDisjoint([]) by { NoneDisjoint(); }
    } else {
      LandedDisjoint(base + sizes[0] + 1, sizes[1..]);
      LandedRange(base + sizes[0] + 1, sizes[1..]);
      ConsDisjoint(File(base, sizes[0]), Landed(base + sizes[0] + 1, sizes[1..]));
    }
  }

  lemma NoneDisjoint()
    ensures AllDisjoint([])
  {
  }

  // ---- The parallel parse ------------------------------------------------------------------

  /** The slots: the placeholder's range cut up. */
  method Slots(start: nat, sizes: seq<nat>) returns (bases: seq<nat>)
    ensures bases == Bases(start, sizes)
  {
    bases := [];
    var next := start;
    for i := 0 to |sizes|
      invariant |bases| == i && next == start + Total(sizes[..i])
      invariant forall k :: 0 <= k < i ==> bases[k] == Bases(start, sizes)[k]
    {
      BasesAt(start, sizes, i);
      TotalSnoc(sizes, i);
      bases := bases + [next];
      next := next + sizes[i] + 1;
    }
  }

  method Sum(sizes: seq<nat>) returns (total: nat)
    ensures total == Total(sizes)
  {
    total := 0;
    for i := 0 to |sizes|
      invariant total == Total(sizes[..i])
    {
      TotalSnoc(sizes, i);
      total := total + sizes[i] + 1;
    }
    assert sizes[..|sizes|] == sizes;
  }

  /** A file parsed in a private set, which a filler moves to the slot first. */
  method ParsePrivate(slot: nat, size: nat) returns (f: File)
    requires slot >= 1
    ensures f == File(slot, size)
  {
    var private := new FileSet();
    if slot > 1 { var filler := private.AddFile(slot - 2); }
    f := private.AddFile(size);
  }

  /** Parsing one file after the other into the set itself; the file that fails stays in it. */
  method ParseOneByOne<E>(fset: FileSet, sizes: seq<nat>, parse: Parser<E>) returns (out: Outcome<E>)
    requires fset.Valid()
    modifies fset
    ensures fset.Valid() && out == Sequential(parse, old(fset.base), sizes)
    ensures out.Parsed? ==> fset.files == old(fset.files) + out.files && fset.base == old(fset.base) + Total(sizes)
  {
    ghost var start := fset.base;
    var done := [];
    for i := 0 to |sizes|
      invariant fset.Valid() && |done| == i && fset.base == start + Total(sizes[..i])
      invariant done == Landed(start, sizes)[..i] && fset.files == old(fset.files) + done
      invariant FirstFailure(parse, Bases(start, sizes), 0) == FirstFailure(parse, Bases(start, sizes), i)
    {
      BasesAt(start, sizes, i);
      TotalSnoc(sizes, i);
      var f := fset.AddFile(sizes[i]);
      var err := parse(i, f.base);
      if err.Some? { return Failed(i, err.value); }
      done := done + [f];
    }
    assert sizes[..|sizes|] == sizes && Landed(start, sizes)[..|sizes|] == Landed(start, sizes);
    return Parsed(done);
  }

  /** Other goroutines add files. */
  method OthersJoin(fset: FileSet, others: seq<nat>)
    requires fset.Valid()
    modifies fset
    ensures fset.Valid() && fset.files == old(fset.files) + Landed(old(fset.base), others)
    ensures fset.base == old(fset.base) + Total(others)
  {
    for i := 0 to |others|
      invariant fset.Valid() && fset.base == old(fset.base) + Total(others[..i])
      invariant fset.files == old(fset.files) + Landed(old(fset.base), others)[..i]
    {
      BasesAt(old(fset.base), others, i);
      TotalSnoc(others, i);
      var f := fset.AddFile(others[i]);
    }
    assert others[..|others|] == others;
  }

  lemma {:induction false} LandedAppend(base: nat, a: seq<nat>, b: seq<nat>)
    ensures Total(a + b) == Total(a) + Total(b)
    ensures Landed(base, a + b) == Landed(base, a) + Landed(base + Total(a), b)
    decreases |a|
  {
    if a == [] {
      assert a + b == b;
    } else {
      assert (a + b)[1..] == a[1..] + b;
      LandedAppend(base + a[0] + 1, a[1..], b);
    }
  }

  /** What a parse leaves for file `k`: its file, or its error. */
  ghost predicate Filled<E>(start: nat, sizes: seq<nat>, parse: Parser<E>, k: nat, file: Option<File>, err: Option<E>)
    requires k < |sizes|
  {
    && err == parse(k, Bases(start, sizes)[k])
    && file == if err.Some? then None else Some(Landed(start, sizes)[k])
  }

  /** Every file in a private set, at its slot, in whatever order the workers come to them. */
  method ParseAll<E>(start: nat, sizes: seq<nat>, bases: seq<nat>, parse: Parser<E>, order: seq<nat>)
    returns (files: seq<Option<File>>, errs: seq<Option<E>>)
    requires start >= 1 && bases == Bases(start, sizes) && Each.OnceEach(|sizes|, order)
    ensures |files| == |errs| == |sizes|
    ensures forall k :: 0 <= k < |sizes| ==> Filled(start, sizes, parse, k, files[k], errs[k])
  {
    hide Filled;
    files, errs := seq(|sizes|, _ => None), seq(|sizes|, _ => None);
    for i := 0 to |order|
      invariant |files| == |errs| == |sizes|
      invariant forall k :: 0 <= k < |sizes| && k in order[..i] ==> Filled(start, sizes, parse, k, files[k], errs[k])
    {
      var k := order[i];
      assert k in order;
      BasesAt(start, sizes, k);
      var f := ParsePrivate(bases[k], sizes[k]);
      var err := parse(k, bases[k]);
      files, errs := files[k := if err.Some? then None else Some(f)], errs[k := err];
      assert Filled(start, sizes, parse, k, files[k], errs[k]) by { FilledNow(start, sizes, parse, k, f); }
      assert forall j :: j in order[..i + 1] <==> j in order[..i] || j == k;
    }
    assert order[..|order|] == order;
  }

  lemma FilledNow<E>(start: nat, sizes: seq<nat>, parse: Parser<E>, k: nat, f: File)
    requires k < |sizes| && f == Landed(start, sizes)[k]
    ensures var err := parse(k, Bases(start, sizes)[k]);
      Filled(start, sizes, parse, k, if err.Some? then None else Some(f), err)
  {
  }

  /** The first error, in file order. */
  method FirstError<E>(errs: seq<Option<E>>, bases: seq<nat>, parse: Parser<E>)
    returns (f: Option<(nat, E)>)
    requires |errs| == |bases| && forall k :: 0 <= k < |bases| ==> errs[k] == parse(k, bases[k])
    ensures f == FirstFailure(parse, bases, 0)
  {
    for i := 0 to |errs|
      invariant FirstFailure(parse, bases, 0) == FirstFailure(parse, bases, i)
    {
      if errs[i].Some? { return Some((i, errs[i].value)); }
    }
    return None;
  }

  /** The first file that is not at its slot. */
  method MissedSlot(files: seq<Option<File>>, bases: seq<nat>) returns (missed: Option<nat>)
    requires |files| == |bases|
    ensures missed.None? <==> forall k :: 0 <= k < |files| ==> files[k].Some? && files[k].value.base == bases[k]
  {
    for i := 0 to |files|
      invariant forall k :: 0 <= k < i ==> files[k].Some? && files[k].value.base == bases[k]
    {
      if files[i].None? || files[i].value.base != bases[i] { return Some(i); }
    }
    return None;
  }

  lemma {:induction false} NoFailure<E>(parse: Parser<E>, bases: seq<nat>, i: nat, k: nat)
    requires i <= k < |bases| && FirstFailure(parse, bases, i).None?
    ensures parse(k, bases[k]).None?
    decreases k - i
  {
    if i < k { NoFailure(parse, bases, i + 1, k); }
  }

  /** Without a failure every file is there, at its slot. */
  lemma AllTookSlots<E>(start: nat, sizes: seq<nat>, parse: Parser<E>, files: seq<Option<File>>, errs: seq<Option<E>>)
    requires |files| == |errs| == |sizes| && FirstFailure(parse, Bases(start, sizes), 0).None?
    requires forall k :: 0 <= k < |sizes| ==> Filled(start, sizes, parse, k, files[k], errs[k])
    ensures forall k :: 0 <= k < |sizes| ==>
      files[k] == Some(Landed(start, sizes)[k]) && Landed(start, sizes)[k].base == Bases(start, sizes)[k]
  {
    hide Landed, Bases;
    forall k | 0 <= k < |sizes|
      ensures files[k] == Some(Landed(start, sizes)[k]) && Landed(start, sizes)[k].base == Bases(start, sizes)[k]
    {
      NoFailure(parse, Bases(start, sizes), 0, k);
      BasesAt(start, sizes, k);
      assert Filled(start, sizes, parse, k, files[k], errs[k]);
    }
  }

  method Values(files: seq<Option<File>>) returns (r: seq<File>)
    requires forall k :: 0 <= k < |files| ==> files[k].Some?
    ensures |r| == |files| && forall k :: 0 <= k < |files| ==> r[k] == files[k].value
  {
    r := [];
    for i := 0 to |files|
      invariant |r| == i && forall k :: 0 <= k < i ==> r[k] == files[k].value
    {
      r := r + [files[i].value];
    }
  }

  lemma ErrorsFilled<E>(start: nat, sizes: seq<nat>, parse: Parser<E>, files: seq<Option<File>>, errs: seq<Option<E>>)
    requires |files| == |errs| == |sizes|
    requires forall k :: 0 <= k < |sizes| ==> Filled(start, sizes, parse, k, files[k], errs[k])
    ensures forall k :: 0 <= k < |sizes| ==> errs[k] == parse(k, Bases(start, sizes)[k])
  {
    hide Bases, Landed;
    forall k | 0 <= k < |sizes| ensures errs[k] == parse(k, Bases(start, sizes)[k]) {
      assert Filled(start, sizes, parse, k, files[k], errs[k]);
    }
  }

  /** The first error in file order, or the files, each at its slot. */
  method Collect<E>(start: nat, sizes: seq<nat>, bases: seq<nat>, parse: Parser<E>,
      files: seq<Option<File>>, errs: seq<Option<E>>) returns (out: Outcome<E>)
    requires bases == Bases(start, sizes) && |files| == |errs| == |sizes|
    requires forall k :: 0 <= k < |sizes| ==> Filled(start, sizes, parse, k, files[k], errs[k])
    ensures out == Sequential(parse, start, sizes)
  {
    hide Landed, Bases, FirstFailure, Filled;
    ErrorsFilled(start, sizes, parse, files, errs);
    var failure := FirstError(errs, bases, parse);
    if failure.Some? { return Failed(failure.value.0, failure.value.1); }
    AllTookSlots(start, sizes, parse, files, errs);
    var missed := MissedSlot(files, bases);
    assert missed.None?;
    var all := Values(files);
    assert all == Landed(start, sizes);
    return Parsed(all);
  }

  /** parsePackageFiles on readable files: `before`, `during` and `after` are the sizes of the
      files that other goroutines add before the range is reserved, while it is, and between its
      release and the hand-over; the workers come to the files in any order that `each` allows. */
  method ParsePackageFiles<E>(fset: FileSet, sizes: seq<nat>, before: seq<nat>, during: seq<nat>, after: seq<nat>,
      parse: Parser<E>, order: seq<nat>) returns (out: Outcome<E>)
    requires fset.Valid() && |sizes| >= 2 && Each.OnceEach(|sizes|, order)
    modifies fset
    ensures fset.Valid() && out == Sequential(parse, old(fset.base) + Total(before), sizes)
    ensures fset.files == old(fset.files) + Landed(old(fset.base), before)
      + Landed(old(fset.base) + Total(before) + Total(sizes), during + after) + if out.Parsed? then out.files else []
    ensures fset.base == old(fset.base) + Total(before) + Total(sizes) + Total(during + after)
  {
    hide Landed, Bases, FirstFailure, AllDisjoint, Below, Each.OnceEach;
    OthersJoin(fset, before);
    ghost var start, was := fset.base, fset.files;
    var total := Sum(sizes);
    assert total >= 1 by { TotalPositive(sizes); }
    var ph := fset.AddFile(total - 1);
    var bases := Slots(ph.base, sizes);
    var files, errs := ParseAll(ph.base, sizes, bases, parse, order);
    OthersJoin(fset, during);
    assert fset.files == was + [ph] + Landed(start + total, during);
    PlaceholderOnce(was, ph, Landed(start + total, during));
    WithoutAt(was, ph, Landed(start + total, during));
    fset.RemoveFile(ph);
    assert fset.files == was + Landed(start + total, during);
    OthersJoin(fset, after);
    LandedAppend(start + total, during, after);
    assert fset.files == was + Landed(start + total, during + after);
    out := Collect(ph.base, sizes, bases, parse, files, errs);
    if out.Parsed? {
      assert out.files == Landed(start, sizes);
      OwnFit(was, start, sizes, during + after);
      fset.AddExistingFiles(out.files);
    }
  }

  lemma TotalPositive(sizes: seq<nat>)
    requires sizes != []
    ensures Total(sizes) >= 1
  {
  }

  /** The files in the reserved range join what was there and what came after. */
  lemma OwnFit(was: seq<File>, start: nat, sizes: seq<nat>, others: seq<nat>)
    requires start >= 1 && Below(was, start) && AllDisjoint(was + Landed(start + Total(sizes), others))
    requires Below(was + Landed(start + Total(sizes), others), start + Total(sizes) + Total(others))
    ensures var all := was + Landed(start + Total(sizes), others) + Landed(start, sizes);
      AllDisjoint(all) && Below(all, start + Total(sizes) + Total(others))
  {
    hide Landed, AllDisjoint, Below;
    var joined, own := Landed(start + Total(sizes), others), Landed(start, sizes);
    LandedDisjoint(start, sizes);
    LandedRange(start, sizes);
    LandedRange(start + Total(sizes), others);
    JoinDisjoint(was, joined, own, start, Total(sizes));
    JoinBelow(was + joined, own, start, start + Total(sizes), start + Total(sizes) + Total(others));
  }

  lemma JoinBelow(fs: seq<File>, own: seq<File>, lo: nat, hi: nat, base: nat)
    requires Below(fs, base) && 1 <= lo && hi <= base && forall f :: f in own ==> lo <= f.base && f.base + f.size < hi
    ensures Below(fs + own, base)
  {
  }

  lemma PlaceholderOnce(was: seq<File>, ph: File, joined: seq<File>)
    requires AllDisjoint(was + [ph] + joined)
    ensures ph !in was && ph in was + [ph] + joined
  {
    var all := was + [ph] + joined;
    assert all[|was|] == ph;
    if ph in was {
      var i: nat :| i < |was| && was[i] == ph;
      StandsOnce(all, i, |was|);
    }
  }

  lemma StandsOnce(fs: seq<File>, i: nat, j: nat)
    requires AllDisjoint(fs) && i < |fs| && j < |fs| && fs[i] == fs[j]
    ensures i == j
  {
  }

  /** Files below the range, above it and in it do not overlap. */
  lemma JoinDisjoint(was: seq<File>, joined: seq<File>, own: seq<File>, start: nat, total: nat)
    requires AllDisjoint(was + joined) && AllDisjoint(own) && Below(was, start)
    requires forall f :: f in joined ==> start + total <= f.base
    requires forall f :: f in own ==> start <= f.base && f.base + f.size < start + total
    ensures AllDisjoint(was + joined + own)
  {
    var all := was + joined + own;
    var m := |was + joined|;
    forall i, j | 0 <= i < j < |all| ensures Disjoint(all[i], all[j]) {
      if j < m {
        assert all[i] == (was + joined)[i] && all[j] == (was + joined)[j];
      } else {
        assert all[j] == own[j - m] && own[j - m] in own;
        if i >= m {
          assert all[i] == own[i - m];
        } else if i < |was| {
          assert all[i] == was[i] && was[i] in was;
        } else {
          assert all[i] == joined[i - |was|] && joined[i - |was|] in joined;
        }
      }
    }
  }
}
