/**
 The 26-bit-limb arithmetic of ChaCha20Poly1305.cs's Poly1305 against section 2.5
 of RFC 8439. Every 32- and 64-bit operation is written with its truncation
 (`Trunc32`, `Trunc64`); the lemmas show that under the limb bounds no truncation loses
 anything, and that one block computes (h + m) * r modulo 2^130 - 5.
 */
module Poly1305Limbs {
  import opened Words
  import opened Endian

  const P: nat := 0x3_ffffffff_ffffffff_ffffffff_fffffffb
  const CLAMP: nat := 0x0ffffffc_0ffffffc_0ffffffc_0fffffff
  const TWO128: nat := 0x1_00000000_00000000_00000000_00000000

  // ---- The authenticator as RFC 8439 defines it -----------------------------

  /** One block: append a 1 byte, add, multiply by r, reduce. */
  function Absorb(r: nat, acc: nat, block: Bytes): (a: nat)
    ensures a < P
  {
    ((acc + FromLe(block + [1])) * r) % P
  }

  /** The accumulator after a message cut into 16-byte blocks, the last possibly shorter. */
  function Accumulate(r: nat, m: Bytes): (a: nat)
    ensures a < P
  {
    if |m| == 0 then 0
    else
      var cut := (|m| - 1) / 16 * 16;
      Absorb(r, Accumulate(r, m[..cut]), m[cut..])
  }

  function ClampedR(key: Bytes): nat
    requires |key| >= 16
  {
    And(FromLe(key[..16]), CLAMP)
  }

  /** The tag of section 2.5.1 of RFC 8439 for a 32-byte one-time key. */
  function Tag(key: Bytes, m: Bytes): (t: Bytes)
    requires |key| >= 32
    ensures |t| == 16
  {
    Le((Accumulate(ClampedR(key), m) + FromLe(key[16..32])) % TWO128, 16)
  }

  // ---- Limbs ------------------------------------------------------------------

  datatype Limbs = Limbs(l0: nat, l1: nat, l2: nat, l3: nat, l4: nat)

  function Value(h: Limbs): nat {
    h.l0 + 0x400_0000 * h.l1 + 0x10_0000_0000_0000 * h.l2
    + 0x4000_00000000_00000000 * h.l3 + 0x100_00000000_00000000_00000000 * h.l4
  }

  /** Truncation to 32 and 64 bits, as `uint` and `ulong` arithmetic in an unchecked block. */
  function Trunc32(x: int): nat { x % 0x1_0000_0000 }
  function Trunc64(x: int): nat { x % 0x1_0000_0000_0000_0000 }

  /** The bound the block loop keeps on the accumulator: one carry into limb 1 is pending. */
  ghost predicate Carried(h: Limbs) {
    && h.l0 < 0x400_0000 && h.l2 < 0x400_0000 && h.l3 < 0x400_0000 && h.l4 < 0x400_0000
    && h.l1 < 0x400_0000 + 64
  }

  ghost predicate Narrow(r: Limbs) {
    && r.l0 < 0x400_0000 && r.l1 < 0x400_0000 && r.l2 < 0x400_0000 && r.l3 < 0x400_0000 && r.l4 < 0x400_0000
  }

  /** The five 64-bit column sums, with `s_i = 5 * r_i` folding 2^130 to 5. */
  function Columns(h: Limbs, r: Limbs): Limbs {
    ColumnSums(h, r, Trunc32(r.l1 * 5), Trunc32(r.l2 * 5), Trunc32(r.l3 * 5), Trunc32(r.l4 * 5))
  }

  function ColumnSums(h: Limbs, r: Limbs, s1: nat, s2: nat, s3: nat, s4: nat): Limbs {
    Limbs(Trunc64(h.l0 * r.l0 + h.l1 * s4 + h.l2 * s3 + h.l3 * s2 + h.l4 * s1),
          Trunc64(h.l0 * r.l1 + h.l1 * r.l0 + h.l2 * s4 + h.l3 * s3 + h.l4 * s2),
          Trunc64(h.l0 * r.l2 + h.l1 * r.l1 + h.l2 * r.l0 + h.l3 * s4 + h.l4 * s3),
          Trunc64(h.l0 * r.l3 + h.l1 * r.l2 + h.l2 * r.l1 + h.l3 * r.l0 + h.l4 * s4),
          Trunc64(h.l0 * r.l4 + h.l1 * r.l3 + h.l2 * r.l2 + h.l3 * r.l1 + h.l4 * r.l0))
  }

  function Quot(x: nat): nat { x / 0x400_0000 }
  function Rem(x: nat): nat { x % 0x400_0000 }

  /** Each column after taking the carry of the one below (`d1 += c`, ...). */
  function CarryColumns(d: Limbs): Limbs {
    var d1 := Trunc64(d.l1 + Quot(d.l0));
    var d2 := Trunc64(d.l2 + Quot(d1));
    var d3 := Trunc64(d.l3 + Quot(d2));
    Limbs(d.l0, d1, d2, d3, Trunc64(d.l4 + Quot(d3)))
  }

  /** Cut the columns to 26 bits and fold the top carry back into limbs 0 and 1. */
  function CutColumns(d: Limbs): Limbs {
    var h0 := Trunc32(Rem(Trunc32(d.l0)) + Trunc32(Trunc32(Quot(d.l4)) * 5));
    Limbs(Rem(h0), Trunc32(Rem(Trunc32(d.l1)) + Trunc32(Quot(h0))), Rem(Trunc32(d.l2)), Rem(Trunc32(d.l3)),
        Rem(Trunc32(d.l4)))
  }

  function Carry(d: Limbs): Limbs {
    CutColumns(CarryColumns(d))
  }

  function AddLimbs(h: Limbs, t: Limbs): Limbs {
    Limbs(Trunc32(h.l0 + t.l0), Trunc32(h.l1 + t.l1), Trunc32(h.l2 + t.l2), Trunc32(h.l3 + t.l3), Trunc32(h.l4 + t.l4))
  }

  /** One iteration of `Blocks`: add the message limbs, multiply by r, carry. */
  function Step(h: Limbs, r: Limbs, t: Limbs): Limbs {
    Carry(Columns(AddLimbs(h, t), r))
  }

  // ---- No truncation --------------------------------------------------------------

  lemma MulBound(a: nat, b: nat, x: nat, y: nat)
    requires a <= x && b <= y
    ensures a * b <= x * y
  {
    assert a * b <= x * b;
    assert x * b <= x * y;
  }

  const HMAX: nat := 0x800_0000 + 64   // limb bound after adding a block
  const RMAX: nat := 0x400_0000
  const PMAX: nat := 0x20_0001_0000_0000 // HMAX * RMAX

  ghost predicate Wide(h: Limbs) {
    h.l0 <= HMAX && h.l1 <= HMAX && h.l2 <= HMAX && h.l3 <= HMAX && h.l4 <= HMAX
  }

  lemma RowBound(x: nat, r: Limbs)
    requires x <= HMAX && Narrow(r)
    ensures x * r.l0 <= PMAX && x * r.l1 <= PMAX && x * r.l2 <= PMAX && x * r.l3 <= PMAX && x * r.l4 <= PMAX
  {
    assert HMAX * RMAX == PMAX;
    MulBound(x, r.l0, HMAX, RMAX);
    MulBound(x, r.l1, HMAX, RMAX);
    MulBound(x, r.l2, HMAX, RMAX);
    MulBound(x, r.l3, HMAX, RMAX);
    MulBound(x, r.l4, HMAX, RMAX);
  }

  /** The columns without truncation, as sums of the 25 limb products. */
  function ExactColumns(h: Limbs, r: Limbs): Limbs {
    Limbs(h.l0 * r.l0 + 5 * (h.l1 * r.l4) + 5 * (h.l2 * r.l3) + 5 * (h.l3 * r.l2) + 5 * (h.l4 * r.l1),
          h.l0 * r.l1 + h.l1 * r.l0 + 5 * (h.l2 * r.l4) + 5 * (h.l3 * r.l3) + 5 * (h.l4 * r.l2),
          h.l0 * r.l2 + h.l1 * r.l1 + h.l2 * r.l0 + 5 * (h.l3 * r.l4) + 5 * (h.l4 * r.l3),
          h.l0 * r.l3 + h.l1 * r.l2 + h.l2 * r.l1 + h.l3 * r.l0 + 5 * (h.l4 * r.l4),
          h.l0 * r.l4 + h.l1 * r.l3 + h.l2 * r.l2 + h.l3 * r.l1 + h.l4 * r.l0)
  }

  lemma Times5(x: nat, y: nat)
    ensures x * (y * 5) == 5 * (x * y)
  {
  }

  ghost predicate ColumnBounds(d: Limbs) {
    d.l0 <= 21 * PMAX && d.l1 <= 17 * PMAX && d.l2 <= 13 * PMAX && d.l3 <= 9 * PMAX && d.l4 <= 5 * PMAX
  }

  lemma ExactBounds(h: Limbs, r: Limbs)
    requires Wide(h) && Narrow(r)
    ensures ColumnBounds(ExactColumns(h, r))
  {
    RowBound(h.l0, r);
    RowBound(h.l1, r);
    RowBound(h.l2, r);
    RowBound(h.l3, r);
    RowBound(h.l4, r);
  }

  lemma SumsAreColumns(h: Limbs, r: Limbs)
    requires ColumnBounds(ExactColumns(h, r))
    ensures ColumnSums(h, r, r.l1 * 5, r.l2 * 5, r.l3 * 5, r.l4 * 5) == ExactColumns(h, r)
  {
    Times5(h.l1, r.l4);
    Times5(h.l2, r.l3); Times5(h.l2, r.l4);
    Times5(h.l3, r.l2); Times5(h.l3, r.l3); Times5(h.l3, r.l4);
    Times5(h.l4, r.l1); Times5(h.l4, r.l2); Times5(h.l4, r.l3); Times5(h.l4, r.l4);
  }

  lemma FoldedExact(r: Limbs)
    requires Narrow(r)
    ensures Trunc32(r.l1 * 5) == r.l1 * 5 && Trunc32(r.l2 * 5) == r.l2 * 5
    ensures Trunc32(r.l3 * 5) == r.l3 * 5 && Trunc32(r.l4 * 5) == r.l4 * 5
  {
  }

  /** No column overflows 64 bits. */
  lemma ColumnsExact(h: Limbs, r: Limbs)
    requires Wide(h) && Narrow(r)
    ensures Columns(h, r) == ExactColumns(h, r) && ColumnBounds(ExactColumns(h, r))
  {
    calc {
      Columns(h, r);
      { FoldedExact(r); }
      ColumnSums(h, r, r.l1 * 5, r.l2 * 5, r.l3 * 5, r.l4 * 5);
      { ExactBounds(h, r); SumsAreColumns(h, r); }
      ExactColumns(h, r);
    }
    ExactBounds(h, r);
  }

  lemma Low26(x: nat)
    ensures Rem(Trunc32(x)) == Rem(x)
  {
    assert x % 0x1_0000_0000 == x - 0x400_0000 * (64 * (x / 0x1_0000_0000));
  }

  lemma QuotRem(x: nat)
    ensures x == Rem(x) + 0x400_0000 * Quot(x) && Rem(x) < 0x400_0000
  {
  }

  /** The sums entering the carry chain at limbs 1 to 4. */
  function Chain(d: Limbs): Limbs {
    var d1 := d.l1 + Quot(d.l0);
    var d2 := d.l2 + Quot(d1);
    var d3 := d.l3 + Quot(d2);
    Limbs(d.l0, d1, d2, d3, d.l4 + Quot(d3))
  }

  /** The carry chain on unbounded integers. */
  function ExactCarry(d: Limbs): Limbs {
    var e := Chain(d);
    var h0 := Rem(e.l0) + 5 * Quot(e.l4);
    Limbs(Rem(h0), Rem(e.l1) + Quot(h0), Rem(e.l2), Rem(e.l3), Rem(e.l4))
  }

  lemma ChainBounds(d: Limbs)
    requires ColumnBounds(d)
    ensures var e := Chain(d);
            e.l0 < 0x800_0000_0000_0000 && e.l1 < 0x800_0000_0000_0000 && e.l2 < 0x800_0000_0000_0000
            && e.l3 < 0x800_0000_0000_0000 && 5 * Quot(e.l4) + 0x400_0000 < 0x1_0000_0000
  {
    QuotRem(d.l0);
    QuotRem(d.l1 + Quot(d.l0));
    var e := Chain(d);
    QuotRem(e.l2);
    QuotRem(e.l3);
    QuotRem(e.l4);
  }

  lemma CarryIsExact(d: Limbs)
    requires ColumnBounds(d)
    ensures Carry(d) == ExactCarry(d) && Carried(ExactCarry(d))
  {
    ChainIsExact(d);
    CutIsExact(d);
  }

  lemma ChainIsExact(d: Limbs)
    requires ColumnBounds(d)
    ensures CarryColumns(d) == Chain(d)
  {
    ChainBounds(d);
    QuotRem(Chain(d).l4);
  }

  lemma CutIsExact(d: Limbs)
    requires ColumnBounds(d)
    ensures CutColumns(Chain(d)) == ExactCarry(d) && Carried(ExactCarry(d))
  {
    hide Quot, Rem, Trunc32, Chain;
    ChainBounds(d);
    var e := Chain(d);
    assert e.l0 == d.l0 by { ChainBase(d); }
    Low26(e.l0); Low26(e.l1); Low26(e.l2); Low26(e.l3); Low26(e.l4);
    QuotRem(e.l0); QuotRem(e.l1); QuotRem(e.l2); QuotRem(e.l3); QuotRem(e.l4);
    var h0 := Rem(e.l0) + 5 * Quot(e.l4);
    QuotRem(h0);
    CarryTop(Quot(e.l4), Rem(e.l0), Rem(e.l1));
  }

  lemma ChainBase(d: Limbs)
    ensures Chain(d).l0 == d.l0
  {
  }

  lemma CarryTop(c4: nat, a0: nat, a1: nat)
    requires 5 * c4 + 0x400_0000 < 0x1_0000_0000 && a0 < 0x400_0000 && a1 < 0x400_0000
    ensures Trunc32(a0 + Trunc32(Trunc32(c4) * 5)) == a0 + 5 * c4
    ensures Quot(a0 + 5 * c4) < 64
    ensures Trunc32(a1 + Trunc32(Quot(a0 + 5 * c4))) == a1 + Quot(a0 + 5 * c4)
  {
    assert Trunc32(c4) == c4;
    assert Trunc32(c4 * 5) == c4 * 5;
  }

  /** The chain changes the value by a multiple of 2^130 - 5: it folds the top carry back as 5. */
  lemma CarryValue(d: Limbs)
    ensures Value(d) == Value(ExactCarry(d)) + P * Quot(Chain(d).l4)
  {
    hide Quot, Rem;
    var e := Chain(d);
    var h0 := Rem(e.l0) + 5 * Quot(e.l4);
    QuotRem(e.l0);
    QuotRem(e.l1);
    QuotRem(e.l2);
    QuotRem(e.l3);
    QuotRem(e.l4);
    QuotRem(h0);
  }

  // ---- The product --------------------------------------------------------------

  lemma Row(x: nat, r: Limbs)
    ensures x * Value(r) == x * r.l0 + 0x400_0000 * (x * r.l1) + 0x10_0000_0000_0000 * (x * r.l2)
                            + 0x4000_00000000_00000000 * (x * r.l3)
                            + 0x100_00000000_00000000_00000000 * (x * r.l4)
  {
  }

  lemma Rows(h: Limbs, v: nat)
    ensures Value(h) * v == h.l0 * v + 0x400_0000 * (h.l1 * v) + 0x10_0000_0000_0000 * (h.l2 * v)
                            + 0x4000_00000000_00000000 * (h.l3 * v)
                            + 0x100_00000000_00000000_00000000 * (h.l4 * v)
  {
  }

  /** What the product holds above 2^130. */
  function Folded(h: Limbs, r: Limbs): int {
    h.l1 * r.l4 + h.l2 * r.l3 + h.l3 * r.l2 + h.l4 * r.l1
    + 0x400_0000 * (h.l2 * r.l4 + h.l3 * r.l3 + h.l4 * r.l2)
    + 0x10_0000_0000_0000 * (h.l3 * r.l4 + h.l4 * r.l3)
    + 0x4000_00000000_00000000 * (h.l4 * r.l4)
  }

  /** The columns are the product up to a multiple of 2^130 - 5. */
  lemma ColumnsProduct(h: Limbs, r: Limbs)
    ensures Value(h) * Value(r) == Value(ExactColumns(h, r)) + P * Folded(h, r)
  {
    Rows(h, Value(r));
    Row(h.l0, r);
    Row(h.l1, r);
    Row(h.l2, r);
    Row(h.l3, r);
    Row(h.l4, r);
  }

  // ---- One block ------------------------------------------------------------------

  lemma ModPlusMultiple(x: nat, y: nat, k: int)
    requires x == y + P * k
    ensures x % P == y % P
  {
  }

  lemma ReduceThenMultiply(x: nat, m: nat, r: nat)
    ensures ((x % P + m) * r) % P == ((x + m) * r) % P
  {
    var q, a := x / P, x % P;
    assert x == a + P * q;
    assert (x + m) * r == (a + m) * r + P * (q * r) by {
      assert (x + m) * r == (a + m) * r + (P * q) * r;
    }
    ModPlusMultiple((x + m) * r, (a + m) * r, q * r);
  }

  lemma AddExact(h: Limbs, t: Limbs)
    requires Carried(h) && Narrow(t)
    ensures AddLimbs(h, t) == Limbs(h.l0 + t.l0, h.l1 + t.l1, h.l2 + t.l2, h.l3 + t.l3, h.l4 + t.l4)
    ensures Wide(AddLimbs(h, t))
  {
    assert forall x: nat :: x < 0x1_0000_0000 ==> Trunc32(x) == x;
  }

  lemma AddValue(h: Limbs, t: Limbs)
    ensures Value(Limbs(h.l0 + t.l0, h.l1 + t.l1, h.l2 + t.l2, h.l3 + t.l3, h.l4 + t.l4)) == Value(h) + Value(t)
  {
  }

  lemma FoldTwice(x: nat, y: nat, z: nat, j: int, k: int)
    requires x == y + P * j && y == z + P * k
    ensures x % P == z % P
  {
    ModPlusMultiple(x, z, j + k);
  }

  lemma ProductCorrect(g: Limbs, r: Limbs)
    requires Wide(g) && Narrow(r)
    ensures Carried(Carry(Columns(g, r)))
    ensures Value(Carry(Columns(g, r))) % P == (Value(g) * Value(r)) % P
  {
    hide *;
    var d := ExactColumns(g, r);
    ColumnsExact(g, r);
    CarryIsExact(d);
    ColumnsProduct(g, r);
    CarryValue(d);
    FoldTwice(Value(g) * Value(r), Value(d), Value(ExactCarry(d)), Folded(g, r), Quot(Chain(d).l4));
  }

  lemma StepParts(h: Limbs, r: Limbs, t: Limbs)
    ensures Step(h, r, t) == Carry(Columns(AddLimbs(h, t), r))
  {
  }

  /** One iteration of `Blocks` computes (h + m) * r modulo 2^130 - 5 and keeps the limb bounds. */
  lemma StepCorrect(h: Limbs, r: Limbs, t: Limbs)
    requires Carried(h) && Narrow(r) && Narrow(t)
    ensures Carried(Step(h, r, t))
    ensures Value(Step(h, r, t)) % P == ((Value(h) % P + Value(t)) * Value(r)) % P
  {
    hide *;
    StepParts(h, r, t);
    AddExact(h, t);
    AddValue(h, t);
    ProductCorrect(AddLimbs(h, t), r);
    ReduceThenMultiply(Value(h), Value(t), Value(r));
  }
}
