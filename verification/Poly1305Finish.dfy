/**
 `Poly1305.Finish` on the accumulator: one more carry pass, the branch-free choice
 between h and h - p, the collapse to 32-bit words and the addition of the pad. The
 result is the accumulator fully reduced modulo 2^130 - 5, plus the pad, modulo 2^128.
 */
module Poly1305Finish {
  import opened Words
  import opened Endian
  import opened Poly1305Limbs
  import opened Poly1305Words

  // ---- The last carry pass ------------------------------------------------------

  function Normalize(h: Limbs): Limbs {
    var h2 := Trunc32(h.l2 + Quot(h.l1));
    var h3 := Trunc32(h.l3 + Quot(h2));
    var h4 := Trunc32(h.l4 + Quot(h3));
    var h0 := Trunc32(h.l0 + Trunc32(Quot(h4) * 5));
    Limbs(Rem(h0), Trunc32(Rem(h.l1) + Quot(h0)), Rem(h2), Rem(h3), Rem(h4))
  }

  lemma NoTrunc(x: nat)
    requires x < 0x1_0000_0000
    ensures Trunc32(x) == x
  {
  }

  /** The sums of the last pass on unbounded integers; `l0` is limb 0 after the fold. */
  function LastSums(h: Limbs): Limbs {
    var h2 := h.l2 + Quot(h.l1);
    var h3 := h.l3 + Quot(h2);
    var h4 := h.l4 + Quot(h3);
    Limbs(h.l0 + 5 * Quot(h4), h.l1, h2, h3, h4)
  }

  function ExactNormalize(h: Limbs): Limbs {
    var e := LastSums(h);
    Limbs(Rem(e.l0), Rem(e.l1) + Quot(e.l0), Rem(e.l2), Rem(e.l3), Rem(e.l4))
  }

  lemma NormalizeExact(h: Limbs)
    requires Carried(h)
    ensures Normalize(h) == ExactNormalize(h) && Narrow(ExactNormalize(h))
  {
    hide Quot, Rem, Trunc32;
    SmallCarries(h);
    var e := LastSums(h);
    NoTrunc(e.l2);
    NoTrunc(e.l3);
    NoTrunc(e.l4);
    NoTrunc(Quot(e.l4) * 5);
    NoTrunc(e.l0);
    NoTrunc(Rem(e.l1) + Quot(e.l0));
    QuotRem(e.l0);
    QuotRem(e.l1);
    QuotRem(e.l2);
    QuotRem(e.l3);
    QuotRem(e.l4);
  }

  lemma NormalizeValue(h: Limbs)
    ensures Value(h) == Value(ExactNormalize(h)) + P * Quot(LastSums(h).l4)
  {
    hide Quot, Rem;
    var e := LastSums(h);
    QuotRem(e.l0);
    QuotRem(e.l1);
    QuotRem(e.l2);
    QuotRem(e.l3);
    QuotRem(e.l4);
  }

  /**
   Every limb ends below 2^26, limb 1 included: a carry can come round from limb 4
   to limb 1 only if limb 1 itself overflowed first, which left it almost empty.
   */
  lemma NormalizeCorrect(h: Limbs)
    requires Carried(h)
    ensures Narrow(Normalize(h)) && Value(Normalize(h)) % P == Value(h) % P
  {
    hide *;
    NormalizeExact(h);
    NormalizeValue(h);
    ModPlusMultiple(Value(h), Value(ExactNormalize(h)), Quot(LastSums(h).l4));
  }

  lemma SmallCarries(h: Limbs)
    requires Carried(h)
    ensures var h2 := h.l2 + Quot(h.l1);
            var h3 := h.l3 + Quot(h2);
            var h4 := h.l4 + Quot(h3);
            var h0 := h.l0 + 5 * Quot(h4);
            && Quot(h.l1) <= 1 && Quot(h2) <= 1 && Quot(h3) <= 1 && Quot(h4) <= 1 && Quot(h0) <= 1
            && Rem(h.l1) + Quot(h0) < 0x400_0000
  {
  }

  // ---- Choosing between h and h - p --------------------------------------------------

  /** g = h + 5 - 2^130 in limbs, the top one as a wrapped 32-bit word. */
  function PlusFive(h: Limbs): Limbs {
    var g0 := Trunc32(h.l0 + 5);
    var g1 := Trunc32(h.l1 + Quot(g0));
    var g2 := Trunc32(h.l2 + Quot(g1));
    var g3 := Trunc32(h.l3 + Quot(g2));
    Limbs(Rem(g0), Rem(g1), Rem(g2), Rem(g3), Trunc32(h.l4 + Quot(g3) - 0x400_0000))
  }

  /** All ones when the subtraction did not borrow, else zero. */
  function BorrowMask(g4: nat): nat {
    Trunc32(g4 / 0x8000_0000 - 1)
  }

  function Pick(h: nat, g: nat, mask: nat): nat
    requires mask < 0x1_0000_0000
  {
    Or(And(h, 0xFFFF_FFFF - mask), And(g, mask))
  }

  function Select(h: Limbs): Limbs {
    var g := PlusFive(h);
    var mask := BorrowMask(g.l4);
    Limbs(Pick(h.l0, g.l0, mask), Pick(h.l1, g.l1, mask), Pick(h.l2, g.l2, mask), Pick(h.l3, g.l3, mask),
          Pick(h.l4, g.l4, mask))
  }

  lemma AllOnes(x: nat)
    requires x < 0x1_0000_0000
    ensures And(x, 0xFFFF_FFFF) == x
  {
    hide *;
    Pow2Values();
    AndLowMask(x, 32);
  }

  lemma PickIs(h: nat, g: nat)
    requires h < 0x1_0000_0000 && g < 0x1_0000_0000
    ensures Pick(h, g, 0) == h && Pick(h, g, 0xFFFF_FFFF) == g
  {
    AllOnes(h);
    AllOnes(g);
    AndZero(h);
    AndZero(g);
    hide And;
  }

  /** h + 5 with its carries propagated, before the cut to 26 bits. */
  function FiveSums(h: Limbs): Limbs {
    var g0 := h.l0 + 5;
    var g1 := h.l1 + Quot(g0);
    var g2 := h.l2 + Quot(g1);
    var g3 := h.l3 + Quot(g2);
    Limbs(g0, g1, g2, g3, h.l4 + Quot(g3))
  }

  function FiveLimbs(h: Limbs): Limbs {
    var g := FiveSums(h);
    Limbs(Rem(g.l0), Rem(g.l1), Rem(g.l2), Rem(g.l3), g.l4)
  }

  lemma PlusFiveExact(h: Limbs)
    requires Narrow(h)
    ensures var g := FiveLimbs(h);
            PlusFive(h) == Limbs(g.l0, g.l1, g.l2, g.l3, Trunc32(g.l4 - 0x400_0000))
    ensures FiveLimbs(h).l4 <= 0x400_0000
  {
    hide Quot, Rem, Trunc32;
    FiveCarries(h);
    var g := FiveSums(h);
    NoTrunc(g.l0);
    NoTrunc(g.l1);
    NoTrunc(g.l2);
    NoTrunc(g.l3);
  }

  lemma FiveValue(h: Limbs)
    ensures Value(h) + 5 == Value(FiveLimbs(h))
    ensures var g := FiveLimbs(h); g.l0 < 0x400_0000 && g.l1 < 0x400_0000 && g.l2 < 0x400_0000 && g.l3 < 0x400_0000
  {
    hide Quot, Rem;
    var g := FiveSums(h);
    QuotRem(g.l0);
    QuotRem(g.l1);
    QuotRem(g.l2);
    QuotRem(g.l3);
  }

  lemma PlusFiveValue(h: Limbs)
    requires Narrow(h)
    ensures var g := PlusFive(h);
            if Value(h) >= P then Narrow(g) && Value(g) == Value(h) - P && BorrowMask(g.l4) == 0xFFFF_FFFF
            else BorrowMask(g.l4) == 0
  {
    hide FiveLimbs, PlusFive, Trunc32, BorrowMask;
    PlusFiveExact(h);
    FiveValue(h);
    var g := FiveLimbs(h);
    BelowTop(g.l0, g.l1, g.l2, g.l3, g.l4);
    Borrow(g.l4);
  }

  lemma Borrow(top: nat)
    requires top <= 0x400_0000
    ensures top == 0x400_0000 ==> Trunc32(top - 0x400_0000) == 0 && BorrowMask(Trunc32(top - 0x400_0000)) == 0xFFFF_FFFF
    ensures top < 0x400_0000 ==> BorrowMask(Trunc32(top - 0x400_0000)) == 0
  {
    if top < 0x400_0000 {
      assert Trunc32(top - 0x400_0000) == top + 0xFC00_0000;
    }
  }

  lemma FiveCarries(h: Limbs)
    requires Narrow(h)
    ensures var g0 := h.l0 + 5;
            var g1 := h.l1 + Quot(g0);
            var g2 := h.l2 + Quot(g1);
            var g3 := h.l3 + Quot(g2);
            Quot(g0) <= 1 && Quot(g1) <= 1 && Quot(g2) <= 1 && Quot(g3) <= 1
            && (h.l4 + Quot(g3) <= 0x400_0000)
  {
  }

  /** Four full limbs never reach the weight of the fifth. */
  lemma BelowTop(a: nat, b: nat, c: nat, d: nat, top: nat)
    requires a < 0x400_0000 && b < 0x400_0000 && c < 0x400_0000 && d < 0x400_0000
    ensures Value(Limbs(a, b, c, d, top)) >= P + 5 <==> top >= 0x400_0000
  {
  }

  lemma SelectIs(h: Limbs)
    requires Narrow(h)
    ensures BorrowMask(PlusFive(h).l4) == 0 ==> Select(h) == h
    ensures BorrowMask(PlusFive(h).l4) == 0xFFFF_FFFF ==> Select(h) == PlusFive(h)
  {
    GBounds(h);
    hide Pick, PlusFive, BorrowMask;
    var g := PlusFive(h);
    PickIs(h.l0, g.l0);
    PickIs(h.l1, g.l1);
    PickIs(h.l2, g.l2);
    PickIs(h.l3, g.l3);
    PickIs(h.l4, g.l4);
  }

  lemma Below2P(h: Limbs)
    requires Narrow(h)
    ensures Value(h) < 2 * P
  {
  }

  /** The choice leaves the one representative below 2^130 - 5. */
  lemma SelectCorrect(h: Limbs)
    requires Narrow(h)
    ensures Narrow(Select(h)) && Value(Select(h)) == Value(h) % P
  {
    hide *;
    PlusFiveValue(h);
    SelectIs(h);
    Below2P(h);
    OnceReduced(Value(h));
  }

  lemma OnceReduced(x: nat)
    requires x < 2 * P
    ensures x % P == if x >= P then x - P else x
  {
  }

  lemma GBounds(h: Limbs)
    ensures var g := PlusFive(h);
            g.l0 < 0x1_0000_0000 && g.l1 < 0x1_0000_0000 && g.l2 < 0x1_0000_0000 && g.l3 < 0x1_0000_0000
            && g.l4 < 0x1_0000_0000
  {
  }

  // ---- Words and pad ---------------------------------------------------------------

  datatype Quad = Quad(w0: nat, w1: nat, w2: nat, w3: nat)

  function QuadValue(q: Quad): nat {
    q.w0 + 0x1_0000_0000 * q.w1 + 0x1_00000000_00000000 * q.w2 + 0x1_00000000_00000000_00000000 * q.w3
  }

  ghost predicate Words32(q: Quad) {
    q.w0 < 0x1_0000_0000 && q.w1 < 0x1_0000_0000 && q.w2 < 0x1_0000_0000 && q.w3 < 0x1_0000_0000
  }

  /** The five limbs shifted together into four words; the two bits above 2^128 are dropped. */
  function Collapse(h: Limbs): Quad {
    Quad(Or(h.l0, Trunc32(h.l1 * 0x400_0000)),
         Or(h.l1 / 0x40, Trunc32(h.l2 * 0x10_0000)),
         Or(h.l2 / 0x1000, Trunc32(h.l3 * 0x4000)),
         Or(h.l3 / 0x4_0000, Trunc32(h.l4 * 0x100)))
  }

  lemma CollapseParts(h: Limbs)
    requires Narrow(h)
    ensures Collapse(h) == Quad(h.l0 + (h.l1 % 0x40) * 0x400_0000,
                                h.l1 / 0x40 + (h.l2 % 0x1000) * 0x10_0000,
                                h.l2 / 0x1000 + (h.l3 % 0x4_0000) * 0x4000,
                                h.l3 / 0x4_0000 + (h.l4 % 0x100_0000) * 0x100)
  {
    Pow24();
    Pow2Values();
    DivModWitness(h.l1 * 0x400_0000, 0x1_0000_0000, h.l1 / 0x40, (h.l1 % 0x40) * 0x400_0000);
    DivModWitness(h.l2 * 0x10_0000, 0x1_0000_0000, h.l2 / 0x1000, (h.l2 % 0x1000) * 0x10_0000);
    DivModWitness(h.l3 * 0x4000, 0x1_0000_0000, h.l3 / 0x4_0000, (h.l3 % 0x4_0000) * 0x4000);
    DivModWitness(h.l4 * 0x100, 0x1_0000_0000, h.l4 / 0x100_0000, (h.l4 % 0x100_0000) * 0x100);
    hide Or, Pow2;
    OrShifted(h.l0, h.l1 % 0x40, 26, 0x400_0000);
    OrShifted(h.l1 / 0x40, h.l2 % 0x1000, 20, 0x10_0000);
    OrShifted(h.l2 / 0x1000, h.l3 % 0x4_0000, 14, 0x4000);
    OrShifted(h.l3 / 0x4_0000, h.l4 % 0x100_0000, 8, 0x100);
  }

  lemma OrShifted(x: nat, y: nat, k: nat, p: nat)
    requires p == Pow2(k) && x < p
    ensures Or(x, y * p) == x + y * p
  {
    OrDisjoint(x, y, k);
  }

  lemma CollapseValue(h: Limbs)
    requires Narrow(h)
    ensures Words32(Collapse(h)) && QuadValue(Collapse(h)) == Value(h) % TWO128
  {
    CollapseParts(h);
    hide Collapse;
    WordBound(h.l0, h.l1 % 0x40, 0x400_0000, 0x40);
    WordBound(h.l1 / 0x40, h.l2 % 0x1000, 0x10_0000, 0x1000);
    WordBound(h.l2 / 0x1000, h.l3 % 0x4_0000, 0x4000, 0x4_0000);
    WordBound(h.l3 / 0x4_0000, h.l4 % 0x100_0000, 0x100, 0x100_0000);
    assert Value(h) == QuadValue(Collapse(h)) + TWO128 * (h.l4 / 0x100_0000) by {
      Recombine(h.l1, 0x40);
      Recombine(h.l2, 0x1000);
      Recombine(h.l3, 0x4_0000);
      Recombine(h.l4, 0x100_0000);
    }
    hide *;
    DivModWitness(Value(h), TWO128, h.l4 / 0x100_0000, QuadValue(Collapse(h)));
  }

  lemma WordBound(lo: nat, hi: nat, p: nat, n: nat)
    requires p * n == 0x1_0000_0000 && lo < p && hi < n
    ensures lo + hi * p < 0x1_0000_0000
  {
    MulBound(hi, p, n - 1, p);
    assert (n - 1) * p == n * p - p;
  }

  lemma Recombine(x: nat, d: nat)
    requires d > 0
    ensures x == x % d + d * (x / d)
  {
  }

  /** The 64-bit running sums of the last lines: add with carry, keep 32 bits of each. */
  function AddPad(q: Quad, pad: Quad): Quad {
    var f0 := Trunc64(q.w0 + pad.w0);
    var f1 := Trunc64(q.w1 + pad.w1 + f0 / 0x1_0000_0000);
    var f2 := Trunc64(q.w2 + pad.w2 + f1 / 0x1_0000_0000);
    var f3 := Trunc64(q.w3 + pad.w3 + f2 / 0x1_0000_0000);
    Quad(Trunc32(f0), Trunc32(f1), Trunc32(f2), Trunc32(f3))
  }

  lemma AddPadValue(q: Quad, pad: Quad)
    requires Words32(q) && Words32(pad)
    ensures Words32(AddPad(q, pad))
    ensures QuadValue(AddPad(q, pad)) == (QuadValue(q) + QuadValue(pad)) % TWO128
  {
    var e := PadSums(q, pad);
    AddPadExact(q, pad);
    PadSumsValue(q, pad);
    hide PadSums, AddPad;
    DivModWitness(QuadValue(q) + QuadValue(pad), TWO128, High32(e.w3), QuadValue(AddPad(q, pad)));
  }

  function Low32(x: nat): nat { x % 0x1_0000_0000 }
  function High32(x: nat): nat { x / 0x1_0000_0000 }

  lemma Split32(x: nat)
    ensures x == Low32(x) + 0x1_0000_0000 * High32(x) && Low32(x) < 0x1_0000_0000
  {
  }

  /** The running sums on unbounded integers. */
  function PadSums(q: Quad, pad: Quad): Quad {
    var f0 := q.w0 + pad.w0;
    var f1 := q.w1 + pad.w1 + High32(f0);
    var f2 := q.w2 + pad.w2 + High32(f1);
    Quad(f0, f1, f2, q.w3 + pad.w3 + High32(f2))
  }

  lemma AddPadExact(q: Quad, pad: Quad)
    requires Words32(q) && Words32(pad)
    ensures var e := PadSums(q, pad);
            AddPad(q, pad) == Quad(Low32(e.w0), Low32(e.w1), Low32(e.w2), Low32(e.w3))
  {
    hide High32, Trunc64, Trunc32;
    var e := PadSums(q, pad);
    Add32(q.w0, pad.w0, 0);
    Add32(q.w1, pad.w1, High32(e.w0));
    Add32(q.w2, pad.w2, High32(e.w1));
    Add32(q.w3, pad.w3, High32(e.w2));
  }

  lemma Add32(x: nat, y: nat, c: nat)
    requires x < 0x1_0000_0000 && y < 0x1_0000_0000 && c <= 1
    ensures Trunc64(x + y + c) == x + y + c && Trunc32(x + y + c) == Low32(x + y + c)
    ensures (x + y + c) / 0x1_0000_0000 == High32(x + y + c) <= 1
  {
  }

  lemma PadSumsValue(q: Quad, pad: Quad)
    ensures var e := PadSums(q, pad);
            var low := Quad(Low32(e.w0), Low32(e.w1), Low32(e.w2), Low32(e.w3));
            && Words32(low) && QuadValue(q) + QuadValue(pad) == QuadValue(low) + TWO128 * High32(e.w3)
            && QuadValue(low) < TWO128
  {
    hide Low32, High32;
    var e := PadSums(q, pad);
    Split32(e.w0);
    Split32(e.w1);
    Split32(e.w2);
    Split32(e.w3);
  }

  // ---- The tag -------------------------------------------------------------------------

  function PadWords(key: Bytes): Quad
    requires |key| >= 32
  {
    Quad(Word(key, 16), Word(key, 20), Word(key, 24), Word(key, 28))
  }

  function QuadBytes(q: Quad): (b: Bytes)
    ensures |b| == 16
  {
    Le(q.w0, 4) + Le(q.w1, 4) + Le(q.w2, 4) + Le(q.w3, 4)
  }

  function FinishBytes(h: Limbs, key: Bytes): (b: Bytes)
    requires |key| >= 32
    ensures |b| == 16
  {
    QuadBytes(AddPad(Collapse(Select(Normalize(h))), PadWords(key)))
  }

  lemma {:induction false} LeSplit(x: nat, y: nat, n: nat, m: nat)
    requires x < Pow256(n)
    ensures Le(x + Pow256(n) * y, n + m) == Le(x, n) + Le(y, m)
    decreases n
  {
    if n == 0 {
    } else {
      var p := Pow256(n - 1);
      assert Pow256(n) * y == 256 * (p * y);
      var v := x + Pow256(n) * y;
      assert v % 256 == x % 256 && v / 256 == x / 256 + p * y;
      LeSplit(x / 256, y, n - 1, m);
    }
  }

  lemma QuadBytesAreLe(q: Quad)
    requires Words32(q)
    ensures QuadBytes(q) == Le(QuadValue(q), 16)
  {
    Pow256Values();
    var y2 := q.w2 + 0x1_0000_0000 * q.w3;
    var y1 := q.w1 + 0x1_0000_0000 * y2;
    hide Le, Pow256;
    LeSplit(q.w2, q.w3, 4, 4);
    LeSplit(q.w1, y2, 4, 8);
    LeSplit(q.w0, y1, 4, 12);
    assert QuadValue(q) == q.w0 + 0x1_0000_0000 * y1;
  }

  lemma PadValue(key: Bytes)
    requires |key| >= 32
    ensures Words32(PadWords(key)) && QuadValue(PadWords(key)) == FromLe(key[16..32])
  {
    var b := key[16..32];
    assert Word(b, 0) == Word(key, 16) && Word(b, 4) == Word(key, 20);
    assert Word(b, 8) == Word(key, 24) && Word(b, 12) == Word(key, 28);
    FourWords(b);
    WordIsLe(b, 0);
    WordIsLe(b, 4);
    WordIsLe(b, 8);
    WordIsLe(b, 12);
  }

  /** `Finish` writes exactly the RFC's tag for the accumulator the limbs stand for. */
  lemma FinishCorrect(h: Limbs, key: Bytes, acc: nat)
    requires Carried(h) && |key| >= 32 && Value(h) % P == acc
    ensures FinishBytes(h, key) == Le((acc + FromLe(key[16..32])) % TWO128, 16)
  {
    hide *;
    var n := Normalize(h);
    var s := Select(n);
    var q := Collapse(s);
    FinishParts(h, key);
    NormalizeCorrect(h);
    SelectCorrect(n);
    CollapseValue(s);
    PadValue(key);
    AddPadValue(q, PadWords(key));
    QuadBytesAreLe(AddPad(q, PadWords(key)));
    DropHigh(acc, FromLe(key[16..32]));
  }

  lemma FinishParts(h: Limbs, key: Bytes)
    requires |key| >= 32
    ensures FinishBytes(h, key) == QuadBytes(AddPad(Collapse(Select(Normalize(h))), PadWords(key)))
  {
  }

  lemma DropHigh(x: nat, y: nat)
    ensures (x % TWO128 + y) % TWO128 == (x + y) % TWO128
  {
  }
}
