/** The shift kernels. Each loop is given as a function of the memory it runs over, for any
    overlap of source and destination, and is exact for precisely the overlaps its direction
    allows: the left shift ascends, the right shift descends. */
module Shifts {
  import opened Basics
  import opened Words
  import opened Kernels

  // ---- The loops -----------------------------------------------------------------------

  /** The left-shift loop from index `i` on, with `c` carried in. */
  function LshFrom(m: seq<Stored>, z: nat, x: nat, n: nat, s: nat, i: nat, c: Word): (r: (seq<Stored>, Word))
    requires z + n <= |m| && x + n <= |m| && i <= n && s < 64
    ensures |r.0| == |m|
    decreases n - i
  {
    if i == n then (m, c)
    else
      var xi := WordOf(m[x + i]);
      LshFrom(m[z + i := StoredOf(OrWord(Shl(xi, s), c))], z, x, n, s, i + 1, Shr(xi, 64 - s))
  }

  /** The right-shift loop over the indices below `i`, downwards. */
  function RshFrom(m: seq<Stored>, z: nat, x: nat, n: nat, s: nat, i: nat, c: Word): (r: (seq<Stored>, Word))
    requires z + n <= |m| && x + n <= |m| && i <= n && s < 64
    ensures |r.0| == |m|
    decreases i
  {
    if i == 0 then (m, c)
    else
      var xi := WordOf(m[x + i - 1]);
      RshFrom(m[z + i - 1 := StoredOf(OrWord(Shr(xi, s), c))], z, x, n, s, i - 1, Shl(xi, 64 - s))
  }

  method LshVU(mem: array<Stored>, z: nat, x: nat, n: nat, s: nat) returns (c: Word)
    requires z + n <= mem.Length && x + n <= mem.Length && s < 64
    modifies mem
    ensures (mem[..], c) == LshFrom(old(mem[..]), z, x, n, s, 0, 0)
  {
    c := 0;
    for i := 0 to n
      invariant LshFrom(mem[..], z, x, n, s, i, c) == LshFrom(old(mem[..]), z, x, n, s, 0, 0)
    {
      var xi := WordOf(mem[x + i]);
      mem[z + i] := StoredOf(OrWord(Shl(xi, s), c));
      c := Shr(xi, 64 - s);
    }
  }

  method RshVU(mem: array<Stored>, z: nat, x: nat, n: nat, s: nat) returns (c: Word)
    requires z + n <= mem.Length && x + n <= mem.Length && s < 64
    modifies mem
    ensures (mem[..], c) == RshFrom(old(mem[..]), z, x, n, s, n, 0)
  {
    c := 0;
    for i := n downto 0
      invariant RshFrom(mem[..], z, x, n, s, i, c) == RshFrom(old(mem[..]), z, x, n, s, n, 0)
    {
      var xi := WordOf(mem[x + i]);
      mem[z + i] := StoredOf(OrWord(Shr(xi, s), c));
      c := Shl(xi, 64 - s);
    }
  }

  // ---- Exact when the loop does not overtake itself --------------------------------------

  /** The left shift is right on memory `m`: `z + c*P(n) = x * 2^s`, with `c < 2^s`. */
  predicate LshRight(m: seq<Stored>, z: nat, x: nat, n: nat, s: nat)
    requires z + n <= |m| && x + n <= |m| && s < 64
  {
    var (r, c) := LshFrom(m, z, x, n, s, 0, 0);
    Val(Window(r, z, n)) + c * P(n) == Val(Window(m, x, n)) * Pow2(s) && c < Pow2(s)
  }

  /** The right shift is right on memory `m`: `z * B + c = x * 2^(64-s)`. */
  predicate RshRight(m: seq<Stored>, z: nat, x: nat, n: nat, s: nat)
    requires z + n <= |m| && x + n <= |m| && s < 64
  {
    var (r, c) := RshFrom(m, z, x, n, s, n, 0);
    Val(Window(r, z, n)) * B + c == Val(Window(m, x, n)) * Pow2(64 - s)
  }

  /** The memory still holds the source words `xs` from index `i` to index `j`. */
  predicate Holds(m: seq<Stored>, x: nat, xs: seq<Word>, i: nat, j: nat)
    requires x + |xs| <= |m| && i <= j <= |xs|
  {
    forall k :: i <= k < j ==> WordOf(m[x + k]) == xs[k]
  }

  lemma {:induction false} LshExactFrom(m: seq<Stored>, z: nat, x: nat, n: nat, s: nat, i: nat, c: Word, xs: seq<Word>)
    requires z + n <= |m| && x + n <= |m| && i <= n == |xs| && s < 64 && Ascends(z, x, n)
    requires Holds(m, x, xs, i, n) && c < Pow2(s)
    requires Val(Window(m, z, i)) + c * P(i) == Val(xs[..i]) * Pow2(s)
    ensures var (r, d) := LshFrom(m, z, x, n, s, i, c);
      Val(Window(r, z, n)) + d * P(n) == Val(xs) * Pow2(s) && d < Pow2(s)
    decreases n - i
  {
    if i == n {
      assert xs[..n] == xs;
    } else {
      var xi := WordOf(m[x + i]);
      var w, d := OrWord(Shl(xi, s), c), Shr(xi, 64 - s);
      ShiftSplit(xi, s);
      OrIsPlus(Shl(xi, s), c, s);
      var m' := m[z + i := StoredOf(w)];
      WindowGrows(m, m', z, i, w);
      ScaledColumn(Window(m, z, i), xs[..i], Pow2(s), 0, c, w, xi, d);
      assert xs[..i + 1] == xs[..i] + [xi];
      LshExactFrom(m', z, x, n, s, i + 1, d, xs);
    }
  }

  /** One more column of a right shift, from the top. */
  lemma RshColumn(v: int, u: int, c: int, w: int, xi: int, d: int, q: int, r: int)
    requires v * B + c == u * q && xi * q == r * B + d && w == c + r
    ensures (w + B * v) * B + d == (xi + B * u) * q
  {
    Spread(xi, B * u, 0, q);
    Reorder(B, u, q);
  }

  /** One word of a right shift. */
  lemma RshWord(xi: Word, c: Word, s: nat)
    requires s < 64 && c % Pow2(64 - s) == 0
    ensures OrWord(Shr(xi, s), c) == c + Shr(xi, s)
    ensures xi * Pow2(64 - s) == Shr(xi, s) * B + Shl(xi, 64 - s) && Shl(xi, 64 - s) % Pow2(64 - s) == 0
  {
    ShiftSplit(xi, 64 - s);
    OrCommutes(Shr(xi, s), c);
    OrIsPlus(c, Shr(xi, s), 64 - s);
  }

  lemma {:induction false} RshExactFrom(m: seq<Stored>, z: nat, x: nat, n: nat, s: nat, i: nat, c: Word, xs: seq<Word>)
    requires z + n <= |m| && x + n <= |m| && i <= n == |xs| && s < 64 && Descends(z, x, n)
    requires Holds(m, x, xs, 0, i) && c % Pow2(64 - s) == 0
    requires Val(Window(m, z + i, n - i)) * B + c == Val(xs[i..]) * Pow2(64 - s)
    ensures var (r, d) := RshFrom(m, z, x, n, s, i, c);
      Val(Window(r, z, n)) * B + d == Val(xs) * Pow2(64 - s)
    decreases i
  {
    if i > 0 {
      var xi, q := WordOf(m[x + i - 1]), Pow2(64 - s);
      var w, d := OrWord(Shr(xi, s), c), Shl(xi, 64 - s);
      RshWord(xi, c, s);
      var m' := m[z + i - 1 := StoredOf(w)];
      assert Window(m', z + i - 1, n - i + 1) == [w] + Window(m, z + i, n - i);
      assert xs[i - 1..] == [xi] + xs[i..];
      RshColumn(Val(Window(m, z + i, n - i)), Val(xs[i..]), c, w, xi, d, q, Shr(xi, s));
      RshExactFrom(m', z, x, n, s, i - 1, d, xs);
    }
  }

  lemma LshExact(m: seq<Stored>, z: nat, x: nat, n: nat, s: nat)
    requires z + n <= |m| && x + n <= |m| && s < 64 && Ascends(z, x, n)
    ensures LshRight(m, z, x, n, s)
  {
    LshExactFrom(m, z, x, n, s, 0, 0, Window(m, x, n));
  }

  lemma RshExact(m: seq<Stored>, z: nat, x: nat, n: nat, s: nat)
    requires z + n <= |m| && x + n <= |m| && s < 64 && Descends(z, x, n)
    ensures RshRight(m, z, x, n, s)
  {
    assert Window(m, x, n)[n..] == [];
    assert Window(m, x, n)[..n] == Window(m, x, n);
    RshExactFrom(m, z, x, n, s, n, 0, Window(m, x, n));
  }

  // ---- Wrong on every other overlap --------------------------------------------------------

  lemma {:induction false} LshBelow(m: seq<Stored>, z: nat, x: nat, n: nat, s: nat, i: nat, c: Word, k: nat)
    requires z + n <= |m| && x + n <= |m| && i <= n && s < 64 && k < z + i
    ensures LshFrom(m, z, x, n, s, i, c).0[k] == m[k]
    decreases n - i
  {
    if i < n {
      var xi := WordOf(m[x + i]);
      LshBelow(m[z + i := StoredOf(OrWord(Shl(xi, s), c))], z, x, n, s, i + 1, Shr(xi, 64 - s), k);
    }
  }

  lemma {:induction false} RshAbove(m: seq<Stored>, z: nat, x: nat, n: nat, s: nat, i: nat, c: Word, k: nat)
    requires z + n <= |m| && x + n <= |m| && i <= n && s < 64 && z + i <= k < |m|
    ensures RshFrom(m, z, x, n, s, i, c).0[k] == m[k]
    decreases i
  {
    if i > 0 {
      var xi := WordOf(m[x + i - 1]);
      RshAbove(m[z + i - 1 := StoredOf(OrWord(Shr(xi, s), c))], z, x, n, s, i - 1, Shl(xi, 64 - s), k);
    }
  }

  lemma ZeroShifts(s: nat)
    requires s <= 64
    ensures Shl(0, s) == 0 && Shr(0, s) == 0 && OrWord(0, 0) == 0
  {
    Quotient(0, Pow2(s), 0, 0);
  }

  /** A memory of zeros but for one word. */
  function Lone(len: nat, at: nat, w: Word): (m: seq<Stored>)
    requires at < len
    ensures |m| == len && forall k :: 0 <= k < len ==> WordOf(m[k]) == if k == at then w else 0
  {
    seq<Stored>(len, k requires 0 <= k < len => if k == at then StoredOf(w) else 0)
  }

  /** Between reading the lone word and coming back to its copy the left shift writes zeros over zeros. */
  lemma {:induction false} LshSkips(m: seq<Stored>, z: nat, x: nat, n: nat, s: nat, i: nat, d: nat)
    requires z + n <= |m| && x + n <= |m| && s < 64 && z == x + d && 1 <= i <= d < n
    requires forall k :: x + i <= k < |m| && k != z ==> m[k] == 0
    ensures LshFrom(m, z, x, n, s, i, 0) == LshFrom(m, z, x, n, s, d, 0)
    decreases d - i
  {
    if i < d {
      ZeroShifts(s);
      ZeroShifts(64 - s);
      assert m[z + i := StoredOf(0)] == m;
      LshSkips(m, z, x, n, s, i + 1, d);
    }
  }

  /** A carry out of column `i - 1` shows in the next word, or as the final carry. */
  lemma LshCarryShows(m: seq<Stored>, z: nat, x: nat, n: nat, s: nat, i: nat, c: Word)
    requires z + n <= |m| && x + n <= |m| && s < 64 && i <= n && c > 0
    ensures var r := LshFrom(m, z, x, n, s, i, c);
      if i == n then r.1 > 0 else WordOf(r.0[z + i]) > 0
  {
    if i < n {
      var xi := WordOf(m[x + i]);
      var w := OrWord(Shl(xi, s), c);
      assert w >= c;
      LshBelow(m[z + i := StoredOf(w)], z, x, n, s, i + 1, Shr(xi, 64 - s), z + i);
    }
  }

  /** A number with a nonzero word above the lowest is more than that lowest word. */
  lemma {:induction false} ValShows(ws: seq<Word>, k: nat)
    requires k < |ws| && ws[k] > 0
    ensures Val(ws) >= P(k)
  {
    if k > 0 {
      ValShows(ws[1..], k - 1);
    }
  }

  lemma Pow2IsWord(s: nat)
    requires s < 64
    ensures Pow2(s) < B && Shl(1, s) == Pow2(s) && Shr(1, 64 - s) == 0
  {
    Pow2Split(s);
    assert Pow2(64 - s) == 2 * Pow2(63 - s);
    Below(Pow2(s), Pow2(64 - s), B);
    assert 1 * Pow2(s) == Pow2(s);
  }

  lemma Below(p: nat, q: nat, b: nat)
    requires p * q == b && q >= 2 && p > 0
    ensures p < b && p % b == p && 1 / q == 0
  {
    MulMono(2, q, p);
    Quotient(p, b, 0, p);
    Quotient(1, q, 0, 1);
  }

  /** A memory of zeros but for a 1 that starts the source and 2^s that starts the destination. */
  function Clash(len: nat, z: nat, x: nat, s: nat): (m: seq<Stored>)
    requires z < len && x < len && s < 64
    ensures |m| == len
  {
    Pow2IsWord(s);
    Lone(len, x, 1)[z := StoredOf(Pow2(s))]
  }

  /** On the lone 1 the loop copies 2^s into the source and comes to read it. */
  lemma LshReachesCopy(len: nat, z: nat, x: nat, n: nat, s: nat)
    requires z + n <= len && x + n <= len && s < 64 && !Ascends(z, x, n)
    ensures LshFrom(Lone(len, x, 1), z, x, n, s, 0, 0) == LshFrom(Clash(len, z, x, s), z, x, n, s, z - x, 0)
  {
    Pow2IsWord(s);
    LshSkips(Clash(len, z, x, s), z, x, n, s, 1, z - x);
  }

  /** From there some word above the lowest, or the final carry, is not zero. */
  lemma LshCopyShows(m: seq<Stored>, z: nat, x: nat, n: nat, s: nat, p: Word)
    requires z + n <= |m| && x + n <= |m| && s < 64 && !Ascends(z, x, n)
    requires WordOf(m[z]) == p == Pow2(s)
    ensures var r := LshFrom(m, z, x, n, s, z - x, 0);
      WordOf(r.0[z]) == p && (r.1 > 0 || exists k :: 0 < k < n && Window(r.0, z, n)[k] > 0)
  {
    var d := z - x;
    ShiftSplit(p, s);
    var w, c := OrWord(Shl(p, s), 0), Shr(p, 64 - s);
    assert p * Pow2(s) > 0;
    var m' := m[z + d := StoredOf(w)];
    var r := LshFrom(m', z, x, n, s, d + 1, c);
    LshBelow(m', z, x, n, s, d + 1, c, z);
    LshBelow(m', z, x, n, s, d + 1, c, z + d);
    if w > 0 {
      assert Window(r.0, z, n)[d] == w;
    } else {
      LshCarryShows(m', z, x, n, s, d + 1, c);
      assert d + 1 < n ==> Window(r.0, z, n)[d + 1] > 0;
    }
  }

  lemma LshFails(len: nat, z: nat, x: nat, n: nat, s: nat)
    requires z + n <= len && x + n <= len && s < 64 && !Ascends(z, x, n)
    ensures !LshRight(Lone(len, x, 1), z, x, n, s)
  {
    var m := Lone(len, x, 1);
    Pow2IsWord(s);
    LshReachesCopy(len, z, x, n, s);
    LshCopyShows(Clash(len, z, x, s), z, x, n, s, Pow2(s));
    var (r, e) := LshFrom(m, z, x, n, s, 0, 0);
    LoneVal(Window(m, x, n), 0, 1);
    TooBig(Window(r, z, n), e, Pow2(s));
  }

  /** A vector that starts with `p` and goes on, or carries, spells more than `p`. */
  lemma TooBig(zs: seq<Word>, e: nat, p: nat)
    requires zs != [] && zs[0] == p && (e > 0 || exists k :: 0 < k < |zs| && zs[k] > 0)
    ensures Val(zs) + e * P(|zs|) > p
  {
    if e > 0 {
      MulMono(1, e, P(|zs|));
      assert P(|zs|) == B * P(|zs| - 1);
    } else {
      var k :| 0 < k < |zs| && zs[k] > 0;
      ValShows(zs[1..], k - 1);
    }
  }

  lemma {:induction false} LoneVal(ws: seq<Word>, at: nat, w: Word)
    requires at < |ws| && forall k :: 0 <= k < |ws| ==> ws[k] == if k == at then w else 0
    ensures Val(ws) == w * P(at)
  {
    if at == 0 {
      ZeroVal(ws[1..]);
    } else {
      LoneVal(ws[1..], at - 1, w);
      Reorder(w, P(at - 1), B);
    }
  }

  lemma {:induction false} ZeroVal(ws: seq<Word>)
    requires forall k :: 0 <= k < |ws| ==> ws[k] == 0
    ensures Val(ws) == 0
  {
    if ws != [] {
      ZeroVal(ws[1..]);
    }
  }

  /** The left shift is right on every memory exactly when the destination does not start
      inside the source above its first word. */
  lemma LshRightIffAscends(len: nat, z: nat, x: nat, n: nat, s: nat)
    requires z + n <= len && x + n <= len && s < 64
    ensures (forall m: seq<Stored> :: |m| == len ==> LshRight(m, z, x, n, s)) <==> Ascends(z, x, n)
  {
    if Ascends(z, x, n) {
      forall m: seq<Stored> | |m| == len ensures LshRight(m, z, x, n, s) {
        LshExact(m, z, x, n, s);
      }
    } else {
      LshFails(len, z, x, n, s);
    }
  }

  const TOP: Word := 0x8000_0000_0000_0000

  lemma TopShifts(s: nat)
    requires s < 64
    ensures Pow2(63 - s) < B && Shr(TOP, s) == Pow2(63 - s) && Shl(TOP, 64 - s) == 0
    ensures TOP * Pow2(64 - s) == Pow2(63 - s) * B
  {
    Pow2Of64();
    Pow2Split(s);
    var p, q := Pow2(s), Pow2(63 - s);
    assert Pow2(64 - s) == 2 * q && Pow2(64) == 2 * Pow2(63);
    assert TOP == q * p;
    TopSplit(p, q);
  }

  lemma TopSplit(p: nat, q: nat)
    requires p > 0 && q > 0 && TOP == q * p
    ensures q < B && TOP / p == q && TOP * (2 * q) % B == 0 && TOP * (2 * q) == q * B
  {
    MulMono(1, p, q);
    MultipleMod(q, p);
    MultipleMod(q, B);
  }

  /** A memory of zeros but for a top bit that ends the source and its copy that ends the destination. */
  function TopClash(len: nat, z: nat, x: nat, n: nat, s: nat): (m: seq<Stored>)
    requires 0 < n && z + n <= len && x + n <= len && s < 64
    ensures |m| == len
  {
    TopShifts(s);
    Lone(len, x + n - 1, TOP)[z + n - 1 := StoredOf(Pow2(63 - s))]
  }

  lemma {:induction false} RshSkips(m: seq<Stored>, z: nat, x: nat, n: nat, s: nat, i: nat, j: nat)
    requires z + n <= |m| && x + n <= |m| && s < 64 && z < x && j <= i < n && x + j == z + n
    requires forall k :: 0 <= k < x + i && k != z + n - 1 ==> m[k] == 0
    ensures RshFrom(m, z, x, n, s, i, 0) == RshFrom(m, z, x, n, s, j, 0)
    decreases i
  {
    if i > j {
      ZeroShifts(s);
      ZeroShifts(64 - s);
      assert m[z + i - 1 := StoredOf(0)] == m;
      RshSkips(m, z, x, n, s, i - 1, j);
    }
  }

  lemma RshReachesCopy(len: nat, z: nat, x: nat, n: nat, s: nat)
    requires z + n <= len && x + n <= len && s < 64 && !Descends(z, x, n)
    ensures RshFrom(Lone(len, x + n - 1, TOP), z, x, n, s, n, 0)
         == RshFrom(TopClash(len, z, x, n, s), z, x, n, s, z + n - x, 0)
  {
    TopShifts(s);
    RshSkips(TopClash(len, z, x, n, s), z, x, n, s, n - 1, z + n - x);
  }

  lemma RshCarryShows(m: seq<Stored>, z: nat, x: nat, n: nat, s: nat, i: nat, c: Word)
    requires z + n <= |m| && x + n <= |m| && s < 64 && i <= n && c > 0
    ensures var r := RshFrom(m, z, x, n, s, i, c);
      if i == 0 then r.1 > 0 else WordOf(r.0[z + i - 1]) > 0
  {
    if i > 0 {
      var xi := WordOf(m[x + i - 1]);
      var w := OrWord(Shr(xi, s), c);
      assert w >= c;
      RshAbove(m[z + i - 1 := StoredOf(w)], z, x, n, s, i - 1, Shl(xi, 64 - s), z + i - 1);
    }
  }

  lemma RshCopyShows(m: seq<Stored>, z: nat, x: nat, n: nat, s: nat, q: Word)
    requires z + n <= |m| && x + n <= |m| && s < 64 && !Descends(z, x, n)
    requires WordOf(m[z + n - 1]) == q > 0
    ensures var r := RshFrom(m, z, x, n, s, z + n - x, 0);
      WordOf(r.0[z + n - 1]) == q && (r.1 > 0 || exists k :: 0 <= k < n - 1 && Window(r.0, z, n)[k] > 0)
  {
    var i := z + n - x;
    ShiftSplit(q, 64 - s);
    assert q * Pow2(64 - s) > 0;
    var w, c := OrWord(Shr(q, s), 0), Shl(q, 64 - s);
    var m' := m[z + i - 1 := StoredOf(w)];
    var r := RshFrom(m', z, x, n, s, i - 1, c);
    RshAbove(m', z, x, n, s, i - 1, c, z + n - 1);
    RshAbove(m', z, x, n, s, i - 1, c, z + i - 1);
    if w > 0 {
      assert Window(r.0, z, n)[i - 1] == w;
    } else {
      RshCarryShows(m', z, x, n, s, i - 1, c);
      assert i - 1 > 0 ==> Window(r.0, z, n)[i - 2] > 0;
    }
  }

  /** A vector that ends with `q` and has another nonzero word, or a carry, spells more than `q` there. */
  lemma MoreBelow(zs: seq<Word>, e: nat, q: Word)
    requires zs != [] && zs[|zs| - 1] == q && (e > 0 || exists k :: 0 <= k < |zs| - 1 && zs[k] > 0)
    ensures Val(zs) * B + e > q * P(|zs| - 1) * B
  {
    var n := |zs| - 1;
    assert zs[..n] + [q] == zs;
    ValAppend(zs[..n], q);
    if e == 0 {
      var k :| 0 <= k < n && zs[k] > 0;
      ValShows(zs[..n], k);
    }
  }

  lemma RshFails(len: nat, z: nat, x: nat, n: nat, s: nat)
    requires z + n <= len && x + n <= len && s < 64 && !Descends(z, x, n)
    ensures !RshRight(Lone(len, x + n - 1, TOP), z, x, n, s)
  {
    var m, q, p := Lone(len, x + n - 1, TOP), Pow2(63 - s), P(n - 1);
    TopShifts(s);
    RshReachesCopy(len, z, x, n, s);
    RshCopyShows(TopClash(len, z, x, n, s), z, x, n, s, q);
    var (r, e) := RshFrom(m, z, x, n, s, n, 0);
    LoneVal(Window(m, x, n), n - 1, TOP);
    MoreBelow(Window(r, z, n), e, q);
    Reorder(TOP, p, Pow2(64 - s));
    Reorder(q, p, B);
  }

  /** The right shift is right on every memory exactly when the destination does not start
      below a source it overlaps. */
  lemma RshRightIffDescends(len: nat, z: nat, x: nat, n: nat, s: nat)
    requires z + n <= len && x + n <= len && s < 64
    ensures (forall m: seq<Stored> :: |m| == len ==> RshRight(m, z, x, n, s)) <==> Descends(z, x, n)
  {
    if Descends(z, x, n) {
      forall m: seq<Stored> | |m| == len ensures RshRight(m, z, x, n, s) {
        RshExact(m, z, x, n, s);
      }
    } else {
      RshFails(len, z, x, n, s);
    }
  }
}
