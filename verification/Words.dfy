/** 64-bit words, the primitives of Go's math/bits on them, and the number a vector of
    words spells. */
module Words {
  import opened Basics

  const B: nat := 0x1_0000_0000_0000_0000

  type Word = w: nat | w < B

  /** How a script slice stores a word: a signed 64-bit integer. */
  type Stored = i: int | -0x8000_0000_0000_0000 <= i < 0x8000_0000_0000_0000

  /** Go's uint64(n) and int64(w). */
  function WordOf(i: Stored): Word { if i < 0 then i + B else i }
  function StoredOf(w: Word): (i: Stored)
    ensures WordOf(i) == w
  { if w < 0x8000_0000_0000_0000 then w else w - B }

  // ---- math/bits and the shift operators ---------------------------------------------

  function Add64(x: Word, y: Word, c: nat): (r: (Word, nat))
    requires c <= 1
    ensures r.0 + r.1 * B == x + y + c && r.1 <= 1
  {
    if x + y + c < B then (x + y + c, 0) else (x + y + c - B, 1)
  }

  function Sub64(x: Word, y: Word, c: nat): (r: (Word, nat))
    requires c <= 1
    ensures r.0 - r.1 * B == x - y - c && r.1 <= 1
  {
    if x >= y + c then (x - y - c, 0) else (x + B - y - c, 1)
  }

  function Mul64(x: Word, y: Word): (p: (Word, Word))
    ensures p.0 * B + p.1 == x * y
  {
    MulBound(x, y, B - 1);
    Divide(x * y, B);
    MulMono(x * y / B, B - 1, B);
    DivBelow(x * y, B, B);
    (x * y / B, x * y % B)
  }

  lemma MulMono(a: int, b: int, k: nat)
    requires a <= b
    ensures a * k <= b * k
  {
    assert b * k - a * k == (b - a) * k;
  }

  lemma MulBound(x: nat, y: nat, m: nat)
    requires x <= m && y <= m
    ensures x * y <= m * m
  {
    MulMono(x, m, y);
    MulMono(y, m, m);
  }

  /** Division with a positive divisor. */
  lemma Divide(x: nat, d: nat)
    requires d > 0
    ensures x == (x / d) * d + x % d && 0 <= x % d < d && 0 <= x / d <= x
  {
    DivLe(x / d, x % d, d);
  }

  lemma DivLe(q: int, r: nat, d: nat)
    requires d > r
    ensures q * d + r >= 0 ==> 0 <= q <= q * d + r
  {
    if q < 0 {
      MulMono(q, -1, d);
    } else {
      assert (d - 1) * q >= 0;
      assert q * d == (d - 1) * q + q;
    }
  }

  lemma DivBelow(x: nat, d: nat, m: nat)
    requires d > 0 && x < m * d
    ensures x / d < m
  {
    Divide(x, d);
    if x / d >= m { MulMono(m, x / d, d); }
  }

  /** Wrapping addition, as `+` on uint64. */
  function Plus(x: Word, y: Word): Word { (x + y) % B }

  /** `x << s` and `x >> s` on uint64; a shift by 64 gives 0. */
  function Shl(x: Word, s: nat): Word { x * Pow2(s) % B }
  function Shr(x: Word, s: nat): (r: Word)
    ensures r <= x
  {
    Divide(x, Pow2(s));
    x / Pow2(s)
  }

  /** Bitwise or. */
  function Or(a: nat, b: nat): (r: nat)
    ensures r >= a && r >= b
    decreases a + b
  {
    if a == 0 then b else if b == 0 then a
    else 2 * Or(a / 2, b / 2) + (if a % 2 == 1 || b % 2 == 1 then 1 else 0)
  }

  /** `x | y` on uint64. */
  function OrWord(x: Word, y: Word): (r: Word)
    ensures r >= x && r >= y
  {
    Pow2Of64();
    OrBelow(x, y, 64);
    Or(x, y)
  }

  lemma {:induction false} OrBelow(a: nat, b: nat, k: nat)
    requires a < Pow2(k) && b < Pow2(k)
    ensures Or(a, b) < Pow2(k)
  {
    if k > 0 && a > 0 && b > 0 {
      OrBelow(a / 2, b / 2, k - 1);
    }
  }

  lemma {:induction false} OrCommutes(a: nat, b: nat)
    ensures Or(a, b) == Or(b, a)
    decreases a + b
  {
    if a > 0 && b > 0 {
      OrCommutes(a / 2, b / 2);
    }
  }

  // ---- Powers ------------------------------------------------------------------------

  lemma {:induction false} Pow2Add(s: nat, t: nat)
    ensures Pow2(s + t) == Pow2(s) * Pow2(t)
  {
    if s > 0 {
      Pow2Add(s - 1, t);
      assert Pow2(s) * Pow2(t) == 2 * (Pow2(s - 1) * Pow2(t));
    }
  }

  lemma Pow2Of64()
    ensures Pow2(64) == B
  {
    assert Pow2(8) == 0x100;
    Pow2Add(8, 8);
    Pow2Add(16, 16);
    Pow2Add(32, 32);
  }

  lemma Pow2Split(s: nat)
    requires s <= 64
    ensures Pow2(s) * Pow2(64 - s) == B
  {
    Pow2Add(s, 64 - s);
    Pow2Of64();
  }

  /** Disjoint bits: or is addition. */
  lemma {:induction false} OrIsPlus(a: nat, b: nat, s: nat)
    requires b < Pow2(s) && a % Pow2(s) == 0
    ensures Or(a, b) == a + b
  {
    if s > 0 && a > 0 && b > 0 {
      var k := a / Pow2(s);
      assert a == k * Pow2(s) == 2 * (k * Pow2(s - 1));
      assert a / 2 == k * Pow2(s - 1);
      MultipleMod(k, Pow2(s - 1));
      OrIsPlus(a / 2, b / 2, s - 1);
    }
  }

  lemma MultipleMod(k: nat, d: nat)
    requires d > 0
    ensures (k * d) % d == 0 && (k * d) / d == k
  {
    Quotient(k * d, d, k, 0);
  }

  /** Quotient and remainder are unique. */
  lemma Quotient(x: nat, d: nat, q: nat, r: nat)
    requires d > 0 && r < d && x == q * d + r
    ensures x / d == q && x % d == r
  {
    Divide(x, d);
    var p, m := x / d, x % d;
    assert (p - q) * d == p * d - q * d == r - m;
    if p > q {
      MulMono(1, p - q, d);
    } else if p < q {
      MulMono(1, q - p, d);
    }
  }

  /** What leaves a word at one end of a shift enters at the other. */
  lemma ShiftSplit(x: Word, s: nat)
    requires s <= 64
    ensures x * Pow2(s) == Shr(x, 64 - s) * B + Shl(x, s)
    ensures Shl(x, s) % Pow2(s) == 0
    ensures Shr(x, 64 - s) < Pow2(s)
  {
    Pow2Split(s);
    SplitAt(x, Pow2(s), Pow2(64 - s), B);
  }

  lemma SplitAt(x: nat, p: nat, q: nat, b: nat)
    requires p > 0 && q > 0 && p * q == b && x < b
    ensures x * p == (x / q) * b + x * p % b
    ensures (x * p % b) % p == 0
    ensures x / q < p
  {
    Divide(x, q);
    var k, r := x / q, x % q;
    assert x * p == (k * q + r) * p == k * q * p + r * p;
    assert k * q * p == k * (p * q) by { assert q * p == p * q; }
    MulMono(r, q - 1, p);
    assert (q - 1) * p == p * q - p;
    Quotient(x * p, b, k, r * p);
    MultipleMod(r, p);
    DivBelow(x, q, p);
  }

  // ---- The number a vector spells, least significant word first ------------------------

  function P(n: nat): (p: nat)
    ensures p > 0
  { if n == 0 then 1 else B * P(n - 1) }

  function Val(ws: seq<Word>): nat { if ws == [] then 0 else ws[0] + B * Val(ws[1..]) }

  lemma {:induction false} ValAppend(ws: seq<Word>, w: Word)
    ensures Val(ws + [w]) == Val(ws) + w * P(|ws|)
  {
    if ws == [] {
      assert Val([w]) == w + B * Val([]);
    } else {
      ValAppend(ws[1..], w);
      assert (ws + [w])[1..] == ws[1..] + [w];
      assert B * (w * P(|ws| - 1)) == w * P(|ws|);
    }
  }

  lemma {:induction false} ValBound(ws: seq<Word>)
    ensures Val(ws) < P(|ws|)
  {
    if ws != [] {
      ValBound(ws[1..]);
    }
  }

  /** A vector is determined by its length and its number. */
  lemma {:induction false} ValInjective(v: seq<Word>, w: seq<Word>)
    requires |v| == |w| && Val(v) == Val(w)
    ensures v == w
  {
    if v != [] {
      assert v[0] == w[0] && Val(v[1..]) == Val(w[1..]);
      ValInjective(v[1..], w[1..]);
      assert v == [v[0]] + v[1..] && w == [w[0]] + w[1..];
    }
  }
}
