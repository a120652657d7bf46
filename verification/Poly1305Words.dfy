/**
 The two ends of Poly1305's limb arithmetic: cutting the key and the message bytes
 into 26-bit limbs, and `Finish`, which reduces fully, adds the pad modulo 2^128
 and writes the tag.
 */
module Poly1305Words {
  import opened Words
  import opened Endian
  import opened Poly1305Limbs

  function Word(b: Bytes, o: nat): nat
    requires o + 4 <= |b|
  {
    Join(b[o], b[o + 1], b[o + 2], b[o + 3])
  }

  function Join(x: nat, y: nat, z: nat, w: nat): nat {
    x + 0x100 * y + 0x1_0000 * z + 0x100_0000 * w
  }

  lemma WordIsLe(b: Bytes, o: nat)
    requires o + 4 <= |b|
    ensures Word(b, o) == FromLe(b[o..o + 4]) && Word(b, o) < 0x1_0000_0000
  {
    var c := b[o..o + 4];
    assert c == [b[o]] + c[1..] && c[1..] == [b[o + 1]] + c[2..] && c[2..] == [b[o + 2]] + c[3..] && c[3..]
        == [b[o + 3]];
    assert FromLe(c[3..]) == b[o + 3];
    assert FromLe(c[2..]) == b[o + 2] + 256 * FromLe(c[3..]);
    assert c[1..][1..] == c[2..];
    assert FromLe(c[1..]) == b[o + 1] + 256 * FromLe(c[2..]);
  }

  lemma NextWord(b: Bytes, o: nat)
    requires o + 4 <= |b|
    ensures FromLe(b[o..]) == Word(b, o) + 0x1_0000_0000 * FromLe(b[o + 4..])
  {
    assert b[o..] == b[o..o + 4] + b[o + 4..];
    FromLeConcat(b[o..o + 4], b[o + 4..]);
    WordIsLe(b, o);
    Pow256Values();
  }

  /** Sixteen bytes are four little-endian words. */
  lemma FourWords(b: Bytes)
    requires |b| == 16
    ensures FromLe(b) == Word(b, 0) + 0x1_0000_0000 * Word(b, 4) + 0x1_00000000_00000000 * Word(b, 8)
                         + 0x1_00000000_00000000_00000000 * Word(b, 12)
  {
    hide *;
    NextWord(b, 0);
    NextWord(b, 4);
    NextWord(b, 8);
    WordIsLe(b, 12);
    assert b[0..] == b && b[12..16] == b[12..];
  }

  // ---- The message ----------------------------------------------------------------

  /** The limbs `Blocks` reads at overlapping offsets; `hibit` is 2^24 except for a padded last block. */
  function MessageLimbs(b: Bytes, hibit: nat): Limbs
    requires |b| == 16
  {
    Limbs(Rem(Word(b, 0)), Rem(Word(b, 3) / 4), Rem(Word(b, 6) / 16), Rem(Word(b, 9) / 64), Or(Word(b, 12) / 256,
        hibit))
  }

  /** Division by a constant, given the quotient and the remainder. */
  lemma DivModWitness(x: nat, d: nat, q: nat, r: nat)
    requires d > 0 && r < d && x == d * q + r
    ensures x / d == q && x % d == r
  {
    ModUnique(x, d, q, r);
  }

  lemma Limb0(x: nat, y: nat, z: nat, w: nat)
    requires x < 256 && y < 256 && z < 256 && w < 256
    ensures Rem(Join(x, y, z, w)) == Join(x, y, z, w % 4)
  {
    DivModWitness(Join(x, y, z, w), 0x400_0000, w / 4, Join(x, y, z, w % 4));
  }

  lemma Limb1(x: nat, y: nat, z: nat, w: nat)
    requires x < 256 && y < 256 && z < 256 && w < 256
    ensures Rem(Join(x, y, z, w) / 4) == x / 4 + 0x40 * y + 0x4000 * z + 0x40_0000 * (w % 16)
  {
    var low := x / 4 + 0x40 * y + 0x4000 * z + 0x40_0000 * (w % 16);
    DivModWitness(Join(x, y, z, w), 4, low + 0x400_0000 * (w / 16), x % 4);
    DivModWitness(low + 0x400_0000 * (w / 16), 0x400_0000, w / 16, low);
  }

  lemma Limb2(x: nat, y: nat, z: nat, w: nat)
    requires x < 256 && y < 256 && z < 256 && w < 256
    ensures Rem(Join(x, y, z, w) / 16) == x / 16 + 0x10 * y + 0x1000 * z + 0x10_0000 * (w % 64)
  {
    var low := x / 16 + 0x10 * y + 0x1000 * z + 0x10_0000 * (w % 64);
    DivModWitness(Join(x, y, z, w), 16, low + 0x400_0000 * (w / 64), x % 16);
    DivModWitness(low + 0x400_0000 * (w / 64), 0x400_0000, w / 64, low);
  }

  lemma Limb3(x: nat, y: nat, z: nat, w: nat)
    requires x < 256 && y < 256 && z < 256 && w < 256
    ensures Rem(Join(x, y, z, w) / 64) == x / 64 + 4 * y + 0x400 * z + 0x4_0000 * w
  {
    DivModWitness(Join(x, y, z, w), 64, x / 64 + 4 * y + 0x400 * z + 0x4_0000 * w, x % 64);
  }

  /** Bytes 3, 6 and 9 straddle two limbs; together the limbs hold each bit once. */
  lemma BytesToLimbs(b: Bytes)
    requires |b| == 16
    ensures var l0, l1, l2, l3 := Rem(Word(b, 0)), Rem(Word(b, 3) / 4), Rem(Word(b, 6) / 16), Rem(Word(b, 9) / 64);
            Value(Limbs(l0, l1, l2, l3, Word(b, 12) / 256)) == FromLe(b)
    ensures Word(b, 12) / 256 < 0x100_0000
  {
    hide *;
    Limb0(b[0], b[1], b[2], b[3]);
    Limb1(b[3], b[4], b[5], b[6]);
    Limb2(b[6], b[7], b[8], b[9]);
    Limb3(b[9], b[10], b[11], b[12]);
    FourWords(b);
    WordParts(b, 0); WordParts(b, 3); WordParts(b, 4); WordParts(b, 6);
    WordParts(b, 8); WordParts(b, 9); WordParts(b, 12);
    Straddle(b[0], b[1], b[2], b[3], b[4], b[5], b[6], b[7], b[8], b[9], b[10], b[11], b[12], b[13], b[14], b[15]);
  }

  lemma WordParts(b: Bytes, o: nat)
    requires o + 4 <= |b|
    ensures Word(b, o) == Join(b[o], b[o + 1], b[o + 2], b[o + 3])
  {
  }

  lemma Straddle(b0: nat, b1: nat, b2: nat, b3: nat, b4: nat, b5: nat, b6: nat, b7: nat,
                 b8: nat, b9: nat, b10: nat, b11: nat, b12: nat, b13: nat, b14: nat, b15: nat)
    requires b12 < 256 && b13 < 256 && b14 < 256 && b15 < 256
    ensures Value(Limbs(Join(b0, b1, b2, b3 % 4),
                        b3 / 4 + 0x40 * b4 + 0x4000 * b5 + 0x40_0000 * (b6 % 16),
                        b6 / 16 + 0x10 * b7 + 0x1000 * b8 + 0x10_0000 * (b9 % 64),
                        b9 / 64 + 4 * b10 + 0x400 * b11 + 0x4_0000 * b12,
                        Join(b12, b13, b14, b15) / 256))
            == Join(b0, b1, b2, b3) + 0x1_0000_0000 * Join(b4, b5, b6, b7)
               + 0x1_00000000_00000000 * Join(b8, b9, b10, b11)
               + 0x1_00000000_00000000_00000000 * Join(b12, b13, b14, b15)
    ensures Join(b12, b13, b14, b15) / 256 < 0x100_0000
  {
    assert Join(b12, b13, b14, b15) / 256 == b13 + 0x100 * b14 + 0x1_0000 * b15;
  }

  /** The limbs of a block are its little-endian value, plus 2^128 when the high bit is set. */
  lemma MessageValue(b: Bytes, hibit: nat)
    requires |b| == 16 && (hibit == 0 || hibit == 0x100_0000)
    ensures Narrow(MessageLimbs(b, hibit))
    ensures Value(MessageLimbs(b, hibit)) == FromLe(b) + if hibit == 0 then 0 else TWO128
  {
    BytesToLimbs(b);
    var top := Word(b, 12) / 256;
    Pow24();
    OrDisjoint(top, hibit / 0x100_0000, 24);
    assert Or(top, hibit) == top + hibit;
  }

  lemma Pow24()
    ensures Pow2(24) == 0x100_0000 && Pow2(6) == 0x40 && Pow2(12) == 0x1000 && Pow2(18) == 0x4_0000
    ensures Pow2(20) == 0x10_0000 && Pow2(14) == 0x4000 && Pow2(26) == 0x400_0000
  {
    assert Pow2(6) == 64;
    Pow2Add(6, 6);
    Pow2Add(12, 6);
    Pow2Add(12, 12);
    assert Pow2(2) == 4;
    Pow2Add(18, 2);
    Pow2Add(12, 2);
    Pow2Add(20, 6);
  }

  // ---- The key --------------------------------------------------------------------

  /** `r` as the constructor cuts it: the clamp is folded into the limb masks. */
  function KeyLimbs(key: Bytes): Limbs
    requires |key| >= 16
  {
    MaskedLimbs(Word(key, 0), Word(key, 4), Word(key, 8), Word(key, 12))
  }

  function MaskedLimbs(t0: nat, t1: nat, t2: nat, t3: nat): Limbs {
    Limbs(And(t0, 0x3ffffff),
          And(Or(t0 / 0x400_0000, Trunc32(t1 * 0x40)), 0x3ffff03),
          And(Or(t1 / 0x10_0000, Trunc32(t2 * 0x1000)), 0x3ffc0ff),
          And(Or(t2 / 0x4000, Trunc32(t3 * 0x4_0000)), 0x3f03fff),
          And(t3 / 0x100, 0x00fffff))
  }

  /** The same five limbs before masking. */
  function RawLimbs(t0: nat, t1: nat, t2: nat, t3: nat): Limbs {
    Limbs(t0 % 0x400_0000,
          t0 / 0x400_0000 + 0x40 * (t1 % 0x10_0000),
          t1 / 0x10_0000 + 0x1000 * (t2 % 0x4000),
          t2 / 0x4000 + 0x4_0000 * (t3 % 0x100),
          t3 / 0x100)
  }

  lemma RawValue(t0: nat, t1: nat, t2: nat, t3: nat)
    requires t0 < 0x1_0000_0000 && t1 < 0x1_0000_0000 && t2 < 0x1_0000_0000 && t3 < 0x1_0000_0000
    ensures Narrow(RawLimbs(t0, t1, t2, t3))
    ensures Value(RawLimbs(t0, t1, t2, t3)) == t0 + 0x1_0000_0000 * t1 + 0x1_00000000_00000000 * t2
                                               + 0x1_00000000_00000000_00000000 * t3
  {
  }

  /** `(lo | (w << k)) & mask` keeps only the bits of the word that fall under the 26-bit mask. */
  lemma MaskedOr(lo: nat, v: nat, k: nat, shifted: nat, base: nat, z: nat, mask: nat)
    requires lo < Pow2(k) && shifted == v * Pow2(k)
    requires lo + shifted == base + z * 0x400_0000 && base < 0x400_0000 && mask < 0x400_0000
    ensures And(Or(lo, shifted), mask) == And(base, mask)
  {
    hide *;
    OrDisjoint(lo, v, k);
    AndZero(z);
    AndLimb(lo + shifted, base, z, mask, mask, 0);
  }

  lemma AndZero(z: nat)
    ensures And(z, 0) == 0
  {
  }

  lemma Shifted6(lo: nat, w: nat)
    requires lo < 0x40
    ensures Trunc32(w * 0x40) == (w % 0x400_0000) * 0x40
    ensures lo + (w % 0x400_0000) * 0x40 == lo + (w % 0x10_0000) * 0x40 + (w % 0x400_0000 / 0x10_0000) * 0x400_0000
    ensures lo + (w % 0x10_0000) * 0x40 < 0x400_0000
  {
    var v := w % 0x400_0000;
    DivModWitness(w * 0x40, 0x1_0000_0000, w / 0x400_0000, v * 0x40);
    var z, y := v / 0x10_0000, v % 0x10_0000;
    DivModWitness(w, 0x10_0000, (w / 0x400_0000) * 0x40 + z, y);
  }

  lemma Masked6(lo: nat, w: nat, mask: nat)
    requires lo < 0x40 && mask < 0x400_0000
    ensures And(Or(lo, Trunc32(w * 0x40)), mask) == And(lo + 0x40 * (w % 0x10_0000), mask)
  {
    hide *;
    Pow24();
    Shifted6(lo, w);
    MaskedOr(lo, w % 0x400_0000, 6, (w % 0x400_0000) * 0x40, lo + (w % 0x10_0000) * 0x40,
        w % 0x400_0000 / 0x10_0000, mask);
  }

  lemma Shifted12(lo: nat, w: nat)
    requires lo < 0x1000
    ensures Trunc32(w * 0x1000) == (w % 0x10_0000) * 0x1000
    ensures lo + (w % 0x10_0000) * 0x1000 == lo + (w % 0x4000) * 0x1000 + (w % 0x10_0000 / 0x4000) * 0x400_0000
    ensures lo + (w % 0x4000) * 0x1000 < 0x400_0000
  {
    var v := w % 0x10_0000;
    DivModWitness(w * 0x1000, 0x1_0000_0000, w / 0x10_0000, v * 0x1000);
    var z, y := v / 0x4000, v % 0x4000;
    DivModWitness(w, 0x4000, (w / 0x10_0000) * 0x40 + z, y);
  }

  lemma Masked12(lo: nat, w: nat, mask: nat)
    requires lo < 0x1000 && mask < 0x400_0000
    ensures And(Or(lo, Trunc32(w * 0x1000)), mask) == And(lo + 0x1000 * (w % 0x4000), mask)
  {
    hide *;
    Pow24();
    Shifted12(lo, w);
    MaskedOr(lo, w % 0x10_0000, 12, (w % 0x10_0000) * 0x1000, lo + (w % 0x4000) * 0x1000, w % 0x10_0000 / 0x4000, mask);
  }

  lemma Shifted18(lo: nat, w: nat)
    requires lo < 0x4_0000
    ensures Trunc32(w * 0x4_0000) == (w % 0x4000) * 0x4_0000
    ensures lo + (w % 0x4000) * 0x4_0000 == lo + (w % 0x100) * 0x4_0000 + (w % 0x4000 / 0x100) * 0x400_0000
    ensures lo + (w % 0x100) * 0x4_0000 < 0x400_0000
  {
    var v := w % 0x4000;
    DivModWitness(w * 0x4_0000, 0x1_0000_0000, w / 0x4000, v * 0x4_0000);
    var z, y := v / 0x100, v % 0x100;
    DivModWitness(w, 0x100, (w / 0x4000) * 0x40 + z, y);
  }

  lemma Masked18(lo: nat, w: nat, mask: nat)
    requires lo < 0x4_0000 && mask < 0x400_0000
    ensures And(Or(lo, Trunc32(w * 0x4_0000)), mask) == And(lo + 0x4_0000 * (w % 0x100), mask)
  {
    hide *;
    Pow24();
    Shifted18(lo, w);
    MaskedOr(lo, w % 0x4000, 18, (w % 0x4000) * 0x4_0000, lo + (w % 0x100) * 0x4_0000, w % 0x4000 / 0x100, mask);
  }

  /** A mask given by limbs is applied limb by limb. */
  lemma AndLimbs(x: Limbs, m: Limbs)
    requires Narrow(x) && Narrow(m)
    ensures And(Value(x), Value(m))
            == Value(Limbs(And(x.l0, m.l0), And(x.l1, m.l1), And(x.l2, m.l2), And(x.l3, m.l3), And(x.l4, m.l4)))
  {
    hide And;
    var x3, m3 := x.l3 + x.l4 * 0x400_0000, m.l3 + m.l4 * 0x400_0000;
    var x2, m2 := x.l2 + x3 * 0x400_0000, m.l2 + m3 * 0x400_0000;
    var x1, m1 := x.l1 + x2 * 0x400_0000, m.l1 + m2 * 0x400_0000;
    AndLimb(x3, x.l3, x.l4, m3, m.l3, m.l4);
    AndLimb(x2, x.l2, x3, m2, m.l2, m3);
    AndLimb(x1, x.l1, x2, m1, m.l1, m2);
    AndLimb(Value(x), x.l0, x1, Value(m), m.l0, m1);
  }

  lemma AndLimb(v: nat, x: nat, hx: nat, n: nat, m: nat, hm: nat)
    requires x < 0x400_0000 && m < 0x400_0000
    requires v == x + hx * 0x400_0000 && n == m + hm * 0x400_0000
    ensures And(v, n) == And(x, m) + And(hx, hm) * 0x400_0000
  {
    hide *;
    Pow24();
    AndSplit(x, hx, m, hm, 26);
    assert v == x + hx * Pow2(26) && n == m + hm * Pow2(26);
  }

  /** The limbs of r are the RFC's clamped r. */
  lemma KeyValue(key: Bytes)
    requires |key| >= 16
    ensures Narrow(KeyLimbs(key)) && Value(KeyLimbs(key)) == ClampedR(key)
  {
    var t0, t1, t2, t3 := Word(key, 0), Word(key, 4), Word(key, 8), Word(key, 12);
    assert Word(key[..16], 0) == t0 && Word(key[..16], 4) == t1 && Word(key[..16], 8) == t2 && Word(key[..16], 12)
        == t3;
    assert KeyLimbs(key) == MaskedLimbs(t0, t1, t2, t3);
    hide *;
    FourWords(key[..16]);
    WordIsLe(key, 0);
    WordIsLe(key, 4);
    WordIsLe(key, 8);
    WordIsLe(key, 12);
    RawValue(t0, t1, t2, t3);
    MaskedIsClamped(t0, t1, t2, t3);
    ClampedParts(key);
  }

  lemma ClampedParts(key: Bytes)
    requires |key| >= 16
    ensures ClampedR(key) == And(FromLe(key[..16]), CLAMP)
  {
  }

  lemma MaskedIsClamped(t0: nat, t1: nat, t2: nat, t3: nat)
    requires t0 < 0x1_0000_0000 && t1 < 0x1_0000_0000 && t2 < 0x1_0000_0000 && t3 < 0x1_0000_0000
    ensures Narrow(MaskedLimbs(t0, t1, t2, t3))
    ensures Value(MaskedLimbs(t0, t1, t2, t3)) == And(Value(RawLimbs(t0, t1, t2, t3)), CLAMP)
  {
    hide And, Or, Trunc32;
    var m := Limbs(0x3ffffff, 0x3ffff03, 0x3ffc0ff, 0x3f03fff, 0x00fffff);
    Masked6(t0 / 0x400_0000, t1, 0x3ffff03);
    Masked12(t1 / 0x10_0000, t2, 0x3ffc0ff);
    Masked18(t2 / 0x4000, t3, 0x3f03fff);
    LowLimb(t0);
    RawValue(t0, t1, t2, t3);
    AndLimbs(RawLimbs(t0, t1, t2, t3), m);
    assert Value(m) == CLAMP;
  }

  lemma LowLimb(t: nat)
    ensures And(t, 0x3ffffff) == And(t % 0x400_0000, 0x3ffffff)
  {
    hide *;
    AndZero(t / 0x400_0000);
    AndLimb(t, t % 0x400_0000, t / 0x400_0000, 0x3ffffff, 0x3ffffff, 0);
  }
}
