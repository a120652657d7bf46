/**
 Unsigned machine words as natural numbers, with the bit operators the source
 applies to them. `Bit`, `And`, `Or` and `Xor` are defined bit by bit, so the
 lemmas below are what licenses reading a mask as a remainder, a shift as a
 division, and an OR of disjoint words as a sum.
 */
module Words {

  type Byte = x: int | 0 <= x < 0x100
  type Bytes = seq<Byte>
  type U16 = x: int | 0 <= x < 0x1_0000
  type U32 = x: int | 0 <= x < 0x1_0000_0000
  type U64 = x: int | 0 <= x < 0x1_0000_0000_0000_0000

  datatype Option<+T> = None | Some(value: T)

  function Pow2(n: nat): (r: nat)
    ensures r >= 1
  {
    if n == 0 then 1 else 2 * Pow2(n - 1)
  }

  lemma Pow2Values()
    ensures Pow2(8) == 0x100
    ensures Pow2(16) == 0x1_0000
    ensures Pow2(26) == 0x400_0000
    ensures Pow2(32) == 0x1_0000_0000
    ensures Pow2(64) == 0x1_0000_0000_0000_0000
  {
    assert Pow2(4) == 16;
    Pow2Add(4, 4);
    Pow2Add(8, 8);
    Pow2Add(16, 4);
    assert Pow2(6) == 64;
    Pow2Add(20, 6);
    Pow2Add(16, 16);
    Pow2Add(32, 32);
  }

  lemma {:induction false} Pow2Add(a: nat, b: nat)
    ensures Pow2(a + b) == Pow2(a) * Pow2(b)
  {
    if a == 0 {
    } else {
      Pow2Add(a - 1, b);
    }
  }

  lemma {:induction false} Pow2Monotone(a: nat, b: nat)
    requires a <= b
    ensures Pow2(a) <= Pow2(b)
  {
    if a < b {
      Pow2Monotone(a, b - 1);
    }
  }

  // ---- Bits -------------------------------------------------------------

  /** Bit `i` of `x`, counting from the least significant. */
  predicate Bit(x: nat, i: nat)
    decreases i
  {
    if i == 0 then x % 2 == 1 else Bit(x / 2, i - 1)
  }

  function And(x: nat, y: nat): (r: nat)
    ensures r <= x && r <= y
  {
    if x == 0 || y == 0 then 0
    else 2 * And(x / 2, y / 2) + (if x % 2 == 1 && y % 2 == 1 then 1 else 0)
  }

  function Or(x: nat, y: nat): (r: nat)
    ensures x <= r && y <= r <= x + y
  {
    if x == 0 then y else if y == 0 then x
    else 2 * Or(x / 2, y / 2) + (if x % 2 == 1 || y % 2 == 1 then 1 else 0)
  }

  function Xor(x: nat, y: nat): (r: nat)
    ensures r <= x + y
    ensures r == 0 <==> x == y
  {
    if x == 0 then y else if y == 0 then x
    else 2 * Xor(x / 2, y / 2) + (if x % 2 != y % 2 then 1 else 0)
  }

  /** `x << k` on a word of `w` bits: the bits pushed past the top are lost. */
  function Shl(x: nat, k: nat, w: nat): (r: nat)
    ensures r < Pow2(w)
  {
    (x * Pow2(k)) % Pow2(w)
  }

  lemma {:induction false} BitOfZero(i: nat)
    ensures !Bit(0, i)
    decreases i
  {
    if i == 0 {
    } else {
      BitOfZero(i - 1);
    }
  }

  lemma {:induction false} BitOfOr(x: nat, y: nat, i: nat)
    ensures Bit(Or(x, y), i) <==> Bit(x, i) || Bit(y, i)
    decreases i
  {
    BitOfZero(i);
    if x != 0 && y != 0 && i != 0 {
      BitOfOr(x / 2, y / 2, i - 1);
    }
  }

  lemma {:induction false} BitOfPow2(d: nat, i: nat)
    ensures Bit(Pow2(d), i) <==> i == d
    decreases i
  {
    if d == 0 {
      if i != 0 { BitOfZero(i - 1); }
    } else if i != 0 {
      BitOfPow2(d - 1, i - 1);
    }
  }

  lemma {:induction false} BitOfProduct(x: nat, k: nat, i: nat)
    ensures Bit(x * Pow2(k), i) <==> i >= k && Bit(x, i - k)
    decreases i
  {
    if k != 0 {
      assert x * Pow2(k) == 2 * (x * Pow2(k - 1));
      if i != 0 { BitOfProduct(x, k - 1, i - 1); }
    } else {
      assert x * Pow2(k) == x;
    }
  }

  lemma {:induction false} HalfOfMod(x: nat, w: nat)
    requires w > 0
    ensures (x % Pow2(w)) / 2 == (x / 2) % Pow2(w - 1)
    ensures (x % Pow2(w)) % 2 == x % 2
  {
    var p := Pow2(w - 1);
    var q, r := (x / 2) / p, (x / 2) % p;
    assert x / 2 == q * p + r;
    assert x == 2 * (q * p + r) + x % 2;
    assert x == q * (2 * p) + (2 * r + x % 2);
    ModUnique(x, 2 * p, q, 2 * r + x % 2);
  }

  /** Quotient and remainder are determined by the equation that defines them. */
  lemma ModUnique(x: nat, d: nat, q: nat, r: nat)
    requires d > 0 && r < d && x == q * d + r
    ensures x % d == r && x / d == q
  {
    DivisionUnique(d, q, r, x / d, x % d);
  }

  lemma DivisionUnique(d: nat, q: int, r: nat, q': int, r': nat)
    requires r < d && r' < d && q * d + r == q' * d + r'
    ensures q == q' && r == r'
  {
    if q < q' {
      MulStep(q, q', d);
      assert false;
    } else if q' < q {
      MulStep(q', q, d);
      assert false;
    }
  }

  lemma MulStep(a: int, b: int, d: nat)
    requires a < b
    ensures a * d + d <= b * d
  {
    var k: nat := b - a - 1;
    assert b * d == (a + 1 + k) * d == a * d + d + k * d;
  }

  lemma {:induction false} BitOfMod(x: nat, w: nat, i: nat)
    ensures Bit(x % Pow2(w), i) <==> i < w && Bit(x, i)
    decreases i
  {
    if w == 0 {
      BitOfZero(i);
    } else {
      HalfOfMod(x, w);
      if i != 0 { BitOfMod(x / 2, w - 1, i - 1); }
    }
  }

  lemma BitOfShl(x: nat, k: nat, w: nat, i: nat)
    ensures Bit(Shl(x, k, w), i) <==> k <= i < w && Bit(x, i - k)
  {
    BitOfMod(x * Pow2(k), w, i);
    BitOfProduct(x, k, i);
  }

  /** `(x & (1 << d)) != 0` is the test of one bit. */
  lemma {:induction false} AndWithPow2(x: nat, d: nat)
    ensures And(x, Pow2(d)) == if Bit(x, d) then Pow2(d) else 0
    decreases d
  {
    if x == 0 {
      BitOfZero(d);
    } else if d == 0 {
      assert And(x / 2, 0) == 0;
    } else {
      AndWithPow2(x / 2, d - 1);
    }
  }

  lemma {:induction false} OrBound(x: nat, y: nat, w: nat)
    requires x < Pow2(w) && y < Pow2(w)
    ensures Or(x, y) < Pow2(w)
    decreases w
  {
    if x != 0 && y != 0 {
      OrBound(x / 2, y / 2, w - 1);
    }
  }

  lemma {:induction false} XorBound(x: nat, y: nat, w: nat)
    requires x < Pow2(w) && y < Pow2(w)
    ensures Xor(x, y) < Pow2(w)
    decreases w
  {
    if x != 0 && y != 0 {
      XorBound(x / 2, y / 2, w - 1);
    }
  }

  /** XOR with the same word twice is the identity: the stream cipher's own inverse. */
  lemma {:induction false} XorTwice(x: nat, y: nat)
    ensures Xor(Xor(x, y), y) == x
  {
    if x != 0 && y != 0 {
      XorTwice(x / 2, y / 2);
      var z := Xor(x, y);
      assert z / 2 == Xor(x / 2, y / 2);
      assert z % 2 == if x % 2 != y % 2 then 1 else 0;
    }
  }

  /** OR of a word with one whose low `k` bits are clear is a sum. */
  lemma {:induction false} OrDisjoint(x: nat, y: nat, k: nat)
    requires x < Pow2(k)
    ensures Or(x, y * Pow2(k)) == x + y * Pow2(k)
    decreases k
  {
    if x != 0 && y != 0 {
      var p := Pow2(k - 1);
      assert y * Pow2(k) == 2 * (y * p);
      OrDisjoint(x / 2, y, k - 1);
    }
  }

  /** A mask of `k` ones keeps the remainder modulo 2^k. */
  lemma {:induction false} AndLowMask(x: nat, k: nat)
    ensures And(x, Pow2(k) - 1) == x % Pow2(k)
    decreases k
  {
    hide And, Pow2;
    Pow2Parts(k);
    AndUnfold(x, Pow2(k) - 1);
    if k == 0 {
    } else {
      HalfOfMod(x, k);
      AndLowMask(x / 2, k - 1);
    }
  }

  /** A mask can be applied to the low `k` bits and to the rest separately. */
  lemma {:induction false} AndSplit(x: nat, hx: nat, m: nat, hm: nat, k: nat)
    requires x < Pow2(k) && m < Pow2(k)
    ensures And(x + hx * Pow2(k), m + hm * Pow2(k)) == And(x, m) + And(hx, hm) * Pow2(k)
    decreases k
  {
    hide And, Pow2;
    Pow2Parts(k);
    if k == 0 {
      AndUnfold(x, m);
      assert hx * Pow2(k) == hx && hm * Pow2(k) == hm && And(hx, hm) * Pow2(k) == And(hx, hm);
    } else {
      AndSplit(x / 2, hx, m / 2, hm, k - 1);
      HalfOfSum(x, hx, k);
      HalfOfSum(m, hm, k);
      HalfOfSum(And(x, m), And(hx, hm), k);
      AndUnfold(x + hx * Pow2(k), m + hm * Pow2(k));
      AndUnfold(x, m);
    }
  }

  lemma Pow2Parts(k: nat)
    ensures if k == 0 then Pow2(k) == 1 else Pow2(k) == 2 * Pow2(k - 1)
  {
  }

  lemma HalfOfSum(x: nat, h: nat, k: nat)
    requires k > 0
    ensures (x + h * Pow2(k)) / 2 == x / 2 + h * Pow2(k - 1)
    ensures (x + h * Pow2(k)) % 2 == x % 2
  {
    assert h * Pow2(k) == 2 * (h * Pow2(k - 1));
  }

  lemma AndUnfold(x: nat, y: nat)
    ensures And(x, y) == 2 * And(x / 2, y / 2) + (if x % 2 == 1 && y % 2 == 1 then 1 else 0)
    ensures y == 0 ==> And(x, y) == 0
  {
  }
}
