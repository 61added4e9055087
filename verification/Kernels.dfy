/** math/big's vector primitives as the interpreter substitutes them: loops over words in
    shared backing arrays. All vectors are regions of one memory, given by their offsets,
    so that they may coincide, overlap or be apart. */
module Kernels {
  import opened Words

  /** The `n` words stored at `off`. */
  function Window(m: seq<Stored>, off: nat, n: nat): (ws: seq<Word>)
    requires off + n <= |m|
    ensures |ws| == n
    ensures forall k :: 0 <= k < n ==> ws[k] == WordOf(m[off + k])
  {
    seq<Word>(n, k requires 0 <= k < n => WordOf(m[off + k]))
  }

  /** An ascending loop writing at `z` never overwrites a word at `x` it has yet to read. */
  predicate Ascends(z: nat, x: nat, n: nat) { z <= x || x + n <= z }

  /** The same for a descending loop. */
  predicate Descends(z: nat, x: nat, n: nat) { x <= z || z + n <= x }

  /** Nothing outside the first `n` words at `z` differs. */
  predicate OnlyAt(a: seq<Stored>, b: seq<Stored>, z: nat, n: nat) {
    |a| == |b| && forall k :: 0 <= k < |a| && !(z <= k < z + n) ==> a[k] == b[k]
  }

  /** Storing the next word extends the window. */
  lemma WindowGrows(m: seq<Stored>, m': seq<Stored>, z: nat, i: nat, w: Word)
    requires z + i < |m| && m' == m[z + i := StoredOf(w)]
    ensures Window(m', z, i + 1) == Window(m, z, i) + [w]
  {
  }

  // ---- Sums --------------------------------------------------------------------------

  /** One more column of a sum `z + c*P = x + y*k + a`. */
  lemma Column(zs: seq<Word>, xs: seq<Word>, ys: seq<Word>, k: int, a: int, c: int, zi: Word, xi: Word, yi: Word,
      c': int)
    requires |zs| == |xs| == |ys|
    requires Val(zs) + c * P(|zs|) == Val(xs) + Val(ys) * k + a
    requires zi + c' * B == xi + yi * k + c
    ensures Val(zs + [zi]) + c' * P(|zs| + 1) == Val(xs + [xi]) + Val(ys + [yi]) * k + a
  {
    var p := P(|zs|);
    ValAppend(zs, zi);
    ValAppend(xs, xi);
    ValAppend(ys, yi);
    ColumnOf(Val(zs), Val(xs), Val(ys), k, a, c, zi, xi, yi, c', p,
             Val(zs + [zi]), Val(xs + [xi]), Val(ys + [yi]), P(|zs| + 1));
  }

  lemma ColumnOf(zv: int, xv: int, yv: int, k: int, a: int, c: int, zi: int, xi: int, yi: int, c': int, p: int,
                 zv': int, xv': int, yv': int, p': int)
    requires zv + c * p == xv + yv * k + a && zi + c' * B == xi + yi * k + c
    requires zv' == zv + zi * p && xv' == xv + xi * p && yv' == yv + yi * p && p' == B * p
    ensures zv' + c' * p' == xv' + yv' * k + a
  {
    ColumnSum(zv, xv, yv, k, a, c, zi, xi, yi, c', p);
  }

  lemma Spread(a: int, b: int, c: int, p: int)
    ensures (a + b + c) * p == a * p + b * p + c * p
  {
  }

  lemma Reorder(a: int, b: int, c: int)
    ensures (a * b) * c == a * (b * c) == (a * c) * b
  {
  }

  lemma ColumnSum(zv: int, xv: int, yv: int, k: int, a: int, c: int, zi: int, xi: int, yi: int, c': int, p: int)
    requires zv + c * p == xv + yv * k + a && zi + c' * B == xi + yi * k + c
    ensures zv + zi * p + c' * (B * p) == (xv + xi * p) + (yv + yi * p) * k + a
  {
    Spread(zi, c' * B, 0, p);
    Reorder(c', B, p);
    Spread(xi, yi * k, c, p);
    Reorder(yi, k, p);
    Spread(yv, yi * p, 0, k);
  }

  lemma Carried(zs: seq<Word>, xs: seq<Word>, ys: seq<Word>, c: nat, zi: Word, xi: Word, yi: Word, c': nat)
    requires |zs| == |xs| == |ys| && Val(zs) + c * P(|zs|) == Val(xs) + Val(ys)
    requires zi + c' * B == xi + yi + c
    ensures Val(zs + [zi]) + c' * P(|zs| + 1) == Val(xs + [xi]) + Val(ys + [yi])
  {
    Column(zs, xs, ys, 1, 0, c, zi, xi, yi, c');
  }

  /** The first `i` columns of `x + y` have been written at `z`, with `c` carried. */
  predicate SumSoFar(m: seq<Stored>, z: nat, xs: seq<Word>, ys: seq<Word>, i: nat, c: nat)
    requires z + i <= |m| && i <= |xs| == |ys|
  {
    Val(Window(m, z, i)) + c * P(i) == Val(xs[..i]) + Val(ys[..i])
  }

  lemma SumStep(m: seq<Stored>, z: nat, xs: seq<Word>, ys: seq<Word>, i: nat, c: nat, zi: Word, c': nat)
    requires z + i < |m| && i < |xs| == |ys| && SumSoFar(m, z, xs, ys, i, c)
    requires zi + c' * B == xs[i] + ys[i] + c
    ensures SumSoFar(m[z + i := StoredOf(zi)], z, xs, ys, i + 1, c')
  {
    WindowGrows(m, m[z + i := StoredOf(zi)], z, i, zi);
    assert xs[..i + 1] == xs[..i] + [xs[i]] && ys[..i + 1] == ys[..i] + [ys[i]];
    Carried(Window(m, z, i), xs[..i], ys[..i], c, zi, xs[i], ys[i], c');
  }

  method AddVV(mem: array<Stored>, z: nat, x: nat, y: nat, n: nat) returns (c: Word)
    requires z + n <= mem.Length && x + n <= mem.Length && y + n <= mem.Length
    modifies mem
    ensures OnlyAt(mem[..], old(mem[..]), z, n) && c <= 1
    ensures Ascends(z, x, n) && Ascends(z, y, n) ==>
      Val(Window(mem[..], z, n)) + c * P(n) == Val(Window(old(mem[..]), x, n)) + Val(Window(old(mem[..]), y, n))
  {
    ghost var xs, ys := Window(mem[..], x, n), Window(mem[..], y, n);
    c := 0;
    for i := 0 to n
      invariant OnlyAt(mem[..], old(mem[..]), z, i) && c <= 1
      invariant Ascends(z, x, n) && Ascends(z, y, n) ==> SumSoFar(mem[..], z, xs, ys, i, c)
    {
      var zi, cc := Add64(WordOf(mem[x + i]), WordOf(mem[y + i]), c).0,
        Add64(WordOf(mem[x + i]), WordOf(mem[y + i]), c).1;
      if Ascends(z, x, n) && Ascends(z, y, n) {
        SumStep(mem[..], z, xs, ys, i, c, zi, cc);
      }
      ghost var m := mem[..];
      mem[z + i], c := StoredOf(zi), cc;
      assert mem[..] == m[z + i := StoredOf(zi)];
    }
    assert xs[..n] == xs && ys[..n] == ys;
  }

  predicate DifferenceSoFar(m: seq<Stored>, z: nat, xs: seq<Word>, ys: seq<Word>, i: nat, c: nat)
    requires z + i <= |m| && i <= |xs| == |ys|
  {
    Val(Window(m, z, i)) - c * P(i) == Val(xs[..i]) - Val(ys[..i])
  }

  lemma DifferenceStep(m: seq<Stored>, z: nat, xs: seq<Word>, ys: seq<Word>, i: nat, c: nat, zi: Word, c': nat)
    requires z + i < |m| && i < |xs| == |ys| && DifferenceSoFar(m, z, xs, ys, i, c)
    requires zi - c' * B == xs[i] - ys[i] - c
    ensures DifferenceSoFar(m[z + i := StoredOf(zi)], z, xs, ys, i + 1, c')
  {
    WindowGrows(m, m[z + i := StoredOf(zi)], z, i, zi);
    assert xs[..i + 1] == xs[..i] + [xs[i]] && ys[..i + 1] == ys[..i] + [ys[i]];
    Borrowed(Window(m, z, i), xs[..i], ys[..i], c, zi, xs[i], ys[i], c');
  }

  lemma Borrowed(zs: seq<Word>, xs: seq<Word>, ys: seq<Word>, c: nat, zi: Word, xi: Word, yi: Word, c': nat)
    requires |zs| == |xs| == |ys| && Val(zs) - c * P(|zs|) == Val(xs) - Val(ys)
    requires zi - c' * B == xi - yi - c
    ensures Val(zs + [zi]) - c' * P(|zs| + 1) == Val(xs + [xi]) - Val(ys + [yi])
  {
    var p := P(|zs|);
    ValAppend(zs, zi);
    ValAppend(xs, xi);
    ValAppend(ys, yi);
    BorrowedOf(Val(zs), Val(xs), Val(ys), c, zi, xi, yi, c', p,
               Val(zs + [zi]), Val(xs + [xi]), Val(ys + [yi]), P(|zs| + 1));
  }

  lemma BorrowedOf(zv: int, xv: int, yv: int, c: int, zi: int, xi: int, yi: int, c': int, p: int,
                   zv': int, xv': int, yv': int, p': int)
    requires zv - c * p == xv - yv && zi - c' * B == xi - yi - c
    requires zv' == zv + zi * p && xv' == xv + xi * p && yv' == yv + yi * p && p' == B * p
    ensures zv' - c' * p' == xv' - yv'
  {
    Negate(c, p);
    Negate(c', p');
    ColumnOf(zv, xv, yv, -1, 0, 0 - c, zi, xi, yi, 0 - c', p, zv', xv', yv', p');
  }

  lemma Negate(c: int, p: int)
    ensures (0 - c) * p == -(c * p)
  {
  }

  method SubVV(mem: array<Stored>, z: nat, x: nat, y: nat, n: nat) returns (c: Word)
    requires z + n <= mem.Length && x + n <= mem.Length && y + n <= mem.Length
    modifies mem
    ensures OnlyAt(mem[..], old(mem[..]), z, n) && c <= 1
    ensures Ascends(z, x, n) && Ascends(z, y, n) ==>
      Val(Window(mem[..], z, n)) - c * P(n) == Val(Window(old(mem[..]), x, n)) - Val(Window(old(mem[..]), y, n))
  {
    ghost var xs, ys := Window(mem[..], x, n), Window(mem[..], y, n);
    c := 0;
    for i := 0 to n
      invariant OnlyAt(mem[..], old(mem[..]), z, i) && c <= 1
      invariant Ascends(z, x, n) && Ascends(z, y, n) ==> DifferenceSoFar(mem[..], z, xs, ys, i, c)
    {
      var zi, cc := Sub64(WordOf(mem[x + i]), WordOf(mem[y + i]), c).0,
        Sub64(WordOf(mem[x + i]), WordOf(mem[y + i]), c).1;
      if Ascends(z, x, n) && Ascends(z, y, n) {
        DifferenceStep(mem[..], z, xs, ys, i, c, zi, cc);
      }
      ghost var m := mem[..];
      mem[z + i], c := StoredOf(zi), cc;
      assert mem[..] == m[z + i := StoredOf(zi)];
    }
    assert xs[..n] == xs && ys[..n] == ys;
  }

  // ---- Products ------------------------------------------------------------------------

  /** The carry word of `x*y + c` and of `x*y + c + w` is a word: `hi + cc + c2` cannot wrap. */
  lemma NoOverflow(x: Word, y: Word, c: Word, w: Word)
    ensures x * y + c + w < B * B
    ensures (x * y + c) / B < B && (x * y + c + w) / B < B
  {
    MulBound(x, y, B - 1);
    DivBelow(x * y + c, B, B);
    DivBelow(x * y + c + w, B, B);
  }

  /** One word of `x*y + c`: the word and the carry, as bits.Mul64 and bits.Add64 make them. */
  function MulWord(x: Word, y: Word, c: Word): (r: (Word, Word))
    ensures r.0 + r.1 * B == x * y + c
  {
    var (hi, lo) := Mul64(x, y);
    var (z, cc) := Add64(lo, c, 0);
    MulCarry(x, y, c, 0, hi, lo, z, cc);
    (z, Plus(hi, cc))
  }

  /** One word of `x + y*m + c`. */
  function AddMulWord(x: Word, y: Word, m: Word, c: Word): (r: (Word, Word))
    ensures r.0 + r.1 * B == x + y * m + c
  {
    var (hi, lo0) := Mul64(y, m);
    var (lo, cc) := Add64(lo0, c, 0);
    var (z, c2) := Add64(x, lo, 0);
    MulCarry(y, m, c, x, hi, lo0, z, cc + c2);
    (z, Plus(Plus(hi, cc), c2))
  }

  /** The two (or three) parts of the carry add up without wrapping. */
  lemma MulCarry(x: Word, y: Word, c: Word, w: Word, hi: Word, lo: Word, z: Word, carry: nat)
    requires hi * B + lo == x * y && z + carry * B == lo + c + w
    ensures hi + carry < B && z + (hi + carry) * B == x * y + c + w
  {
    NoOverflow(x, y, c, w);
    Quotient(x * y + c + w, B, hi + carry, z);
  }

  /** `z = x*y + c0`. */
  method MulAddVWW(mem: array<Stored>, z: nat, x: nat, n: nat, y: Word, c0: Word) returns (c: Word)
    requires z + n <= mem.Length && x + n <= mem.Length
    modifies mem
    ensures OnlyAt(mem[..], old(mem[..]), z, n)
    ensures Ascends(z, x, n) ==>
      Val(Window(mem[..], z, n)) + c * P(n) == Val(Window(old(mem[..]), x, n)) * y + c0
  {
    ghost var xs := Window(mem[..], x, n);
    c := c0;
    for i := 0 to n
      invariant OnlyAt(mem[..], old(mem[..]), z, i)
      invariant Ascends(z, x, n) ==> Val(Window(mem[..], z, i)) + c * P(i) == Val(xs[..i]) * y + c0
    {
      ghost var m, c1 := mem[..], c;
      var xi := WordOf(mem[x + i]);
      var zi, carry := MulWord(xi, y, c).0, MulWord(xi, y, c).1;
      mem[z + i], c := StoredOf(zi), carry;
      WindowGrows(m, mem[..], z, i, zi);
      if Ascends(z, x, n) {
        assert xs[..i + 1] == xs[..i] + [xi];
        ScaledColumn(Window(m, z, i), xs[..i], y, c0, c1, zi, xi, c);
      }
    }
    assert xs[..n] == xs;
  }

  lemma ScaledColumn(zs: seq<Word>, xs: seq<Word>, k: int, a: int, c: int, zi: Word, xi: Word, c': int)
    requires |zs| == |xs| && Val(zs) + c * P(|zs|) == Val(xs) * k + a
    requires zi + c' * B == xi * k + c
    ensures Val(zs + [zi]) + c' * P(|zs| + 1) == Val(xs + [xi]) * k + a
  {
    var p := P(|zs|);
    ValAppend(zs, zi);
    ValAppend(xs, xi);
    ColumnOf(Val(zs), 0, Val(xs), k, a, c, zi, 0, xi, c', p, Val(zs + [zi]), 0, Val(xs + [xi]), P(|zs| + 1));
  }

  predicate FusedSoFar(m: seq<Stored>, z: nat, xs: seq<Word>, ys: seq<Word>, k: Word, a: Word, i: nat, c: nat)
    requires z + i <= |m| && i <= |xs| == |ys|
  {
    Val(Window(m, z, i)) + c * P(i) == Val(xs[..i]) + Val(ys[..i]) * k + a
  }

  lemma FusedStep(m: seq<Stored>, z: nat, xs: seq<Word>, ys: seq<Word>, k: Word, a: Word, i: nat, c: nat, zi: Word,
      c': nat)
    requires z + i < |m| && i < |xs| == |ys| && FusedSoFar(m, z, xs, ys, k, a, i, c)
    requires zi + c' * B == xs[i] + ys[i] * k + c
    ensures FusedSoFar(m[z + i := StoredOf(zi)], z, xs, ys, k, a, i + 1, c')
  {
    WindowGrows(m, m[z + i := StoredOf(zi)], z, i, zi);
    assert xs[..i + 1] == xs[..i] + [xs[i]] && ys[..i + 1] == ys[..i] + [ys[i]];
    Column(Window(m, z, i), xs[..i], ys[..i], k, a, c, zi, xs[i], ys[i], c');
  }

  /** `z = x + y*m + a`. */
  method AddMulVVWW(mem: array<Stored>, z: nat, x: nat, y: nat, n: nat, m: Word, a: Word) returns (c: Word)
    requires z + n <= mem.Length && x + n <= mem.Length && y + n <= mem.Length
    modifies mem
    ensures OnlyAt(mem[..], old(mem[..]), z, n)
    ensures Ascends(z, x, n) && Ascends(z, y, n) ==>
      Val(Window(mem[..], z, n)) + c * P(n)
      == Val(Window(old(mem[..]), x, n)) + Val(Window(old(mem[..]), y, n)) * m + a
  {
    ghost var xs, ys := Window(mem[..], x, n), Window(mem[..], y, n);
    c := a;
    for i := 0 to n
      invariant OnlyAt(mem[..], old(mem[..]), z, i)
      invariant Ascends(z, x, n) && Ascends(z, y, n) ==> FusedSoFar(mem[..], z, xs, ys, m, a, i, c)
    {
      var xi, yi := WordOf(mem[x + i]), WordOf(mem[y + i]);
      var zi, carry := AddMulWord(xi, yi, m, c).0, AddMulWord(xi, yi, m, c).1;
      if Ascends(z, x, n) && Ascends(z, y, n) {
        FusedStep(mem[..], z, xs, ys, m, a, i, c, zi, carry);
      }
      ghost var m0 := mem[..];
      mem[z + i], c := StoredOf(zi), carry;
      assert mem[..] == m0[z + i := StoredOf(zi)];
    }
    assert xs[..n] == xs && ys[..n] == ys;
  }

  // ---- What the laws mean together -----------------------------------------------------

  lemma BitTimes(c: nat, p: nat)
    requires c <= 1
    ensures c * p == if c == 1 then p else 0
  {
  }

  lemma Restored(x: nat, y: nat, z: nat, d: nat, c: nat, b: nat, p: nat)
    requires z + c * p == x + y && d - b * p == z - y && x < p && d < p && c <= 1 && b <= 1
    ensures d == x && b == c
  {
    BitTimes(c, p);
    BitTimes(b, p);
  }

  /** Subtracting what was added gives the first operand back, and borrows exactly when the
      addition carried. */
  lemma SubUndoesAdd(xs: seq<Word>, ys: seq<Word>, zs: seq<Word>, ds: seq<Word>, c: nat, b: nat, p: nat)
    requires |xs| == |ys| == |zs| == |ds| && c <= 1 && b <= 1 && p == P(|xs|)
    requires Val(zs) + c * p == Val(xs) + Val(ys)
    requires Val(ds) - b * p == Val(zs) - Val(ys)
    ensures ds == xs && b == c
  {
    assert Val(xs) < p by { ValBound(xs); }
    assert Val(ds) < p by { ValBound(ds); }
    Restored(Val(xs), Val(ys), Val(zs), Val(ds), c, b, p);
    ValInjective(ds, xs);
  }

  /** A law `z + c*P(n) = v` determines every word and the carry. */
  lemma ResultUnique(zs: seq<Word>, ws: seq<Word>, c: nat, d: nat)
    requires |zs| == |ws| && Val(zs) + c * P(|zs|) == Val(ws) + d * P(|zs|)
    ensures zs == ws && c == d
  {
    ValBound(zs);
    ValBound(ws);
    Quotient(Val(zs) + c * P(|zs|), P(|zs|), c, Val(zs));
    Quotient(Val(zs) + c * P(|zs|), P(|zs|), d, Val(ws));
    ValInjective(zs, ws);
  }
}
