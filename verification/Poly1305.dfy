/**
 The Poly1305 object of ChaCha20Poly1305.cs: bytes are fed in chunks of any size,
 full blocks go straight to the limbs, a partial one waits in a 16-byte buffer.
 `Fed()` is the concatenation of everything fed so far; the tag depends on
 nothing else, and is the one section 2.5 of RFC 8439 defines.
 */
module Poly1305 {
  import opened Words
  import opened Endian
  import opened Poly1305Limbs
  import opened Poly1305Words
  import opened Poly1305Finish

  // ---- The block loop as a function -----------------------------------------------

  function RunBlocks(h: Limbs, r: Limbs, hibit: nat, m: Bytes): Limbs
    decreases |m|
  {
    hide Step, MessageLimbs;
    if |m| < 16 then h else RunBlocks(Step(h, r, MessageLimbs(m[..16], hibit)), r, hibit, m[16..])
  }

  lemma AccumulateNext(r: nat, m: Bytes, block: Bytes)
    requires |m| % 16 == 0 && 0 < |block| <= 16
    ensures Accumulate(r, m + block) == Absorb(r, Accumulate(r, m), block)
  {
    hide Absorb, Accumulate;
    var all := m + block;
    LastBlockStart(|m|, |block|);
    AccumulateParts(r, all);
    assert all[..|m|] == m && all[|m|..] == block;
  }

  lemma LastBlockStart(n: nat, k: nat)
    requires n % 16 == 0 && 0 < k <= 16
    ensures (n + k - 1) / 16 * 16 == n
  {
  }

  lemma AccumulateParts(r: nat, m: Bytes)
    requires m != []
    ensures var start := (|m| - 1) / 16 * 16;
            Accumulate(r, m) == Absorb(r, Accumulate(r, m[..start]), m[start..])
  {
    hide Absorb;
  }

  lemma FromLeWithOne(block: Bytes)
    requires |block| == 16
    ensures FromLe(block + [1]) == FromLe(block) + TWO128
  {
    FromLeConcat(block, [1]);
    Pow256Values();
    assert FromLe([1]) == 1;
  }

  /** A padded last block: data, a 1 byte, then zeros, has the value of data and the 1 byte. */
  lemma {:induction false} FromLeZeros(a: Bytes, n: nat)
    ensures FromLe(a + seq(n, _ => 0)) == FromLe(a)
  {
    var z := seq(n, _ => 0 as Byte);
    FromLeConcat(a, z);
    ZeroValue(n);
  }

  lemma {:induction false} ZeroValue(n: nat)
    ensures FromLe(seq(n, _ => 0 as Byte)) == 0
    decreases n
  {
    if n == 0 {
    } else {
      ZeroValue(n - 1);
      assert seq(n, _ => 0 as Byte)[1..] == seq(n - 1, _ => 0 as Byte);
    }
  }

  /** The limbs stand for the accumulator of `done`. */
  ghost predicate Holds(h: Limbs, key: Bytes, done: Bytes)
    requires |key| >= 16
  {
    Carried(h) && Value(h) % P == Accumulate(ClampedR(key), done)
  }

  lemma NothingHeld(key: Bytes)
    requires |key| >= 16
    ensures Holds(Limbs(0, 0, 0, 0, 0), key, [])
  {
    hide *;
    HoldsParts(Limbs(0, 0, 0, 0, 0), key, []);
    ZeroLimbs(ClampedR(key));
  }

  lemma ZeroLimbs(r: nat)
    ensures Carried(Limbs(0, 0, 0, 0, 0)) && Value(Limbs(0, 0, 0, 0, 0)) == 0 && Accumulate(r, []) == 0
  {
  }

  lemma StepAbsorbs(h: Limbs, key: Bytes, done: Bytes, block: Bytes)
    requires |key| >= 16 && |done| % 16 == 0 && |block| == 16 && Holds(h, key, done)
    ensures Holds(Step(h, KeyLimbs(key), MessageLimbs(block, 0x100_0000)), key, done + block)
  {
    hide *;
    HoldsParts(h, key, done);
    var t := MessageLimbs(block, 0x100_0000);
    KeyValue(key);
    MessageValue(block, 0x100_0000);
    FromLeWithOne(block);
    StepCorrect(h, KeyLimbs(key), t);
    AccumulateNext(ClampedR(key), done, block);
    AbsorbParts(ClampedR(key), Accumulate(ClampedR(key), done), block);
    HoldsParts(Step(h, KeyLimbs(key), t), key, done + block);
  }

  lemma HoldsParts(h: Limbs, key: Bytes, done: Bytes)
    requires |key| >= 16
    ensures Holds(h, key, done) <==> Carried(h) && Value(h) % P == Accumulate(ClampedR(key), done)
  {
  }

  lemma AbsorbParts(r: nat, acc: nat, block: Bytes)
    ensures Absorb(r, acc, block) == ((acc + FromLe(block + [1])) * r) % P
  {
  }

  /** The padded block with the high bit off absorbs the short block. */
  lemma LastStepAbsorbs(h: Limbs, key: Bytes, done: Bytes, part: Bytes)
    requires |key| >= 16 && |done| % 16 == 0 && 0 < |part| < 16 && Holds(h, key, done)
    ensures var padded := part + [1] + seq(15 - |part|, _ => 0);
            |padded| == 16 && Holds(Step(h, KeyLimbs(key), MessageLimbs(padded, 0)), key, done + part)
  {
    hide *;
    var padded := part + [1] + seq(15 - |part|, _ => 0);
    assert |padded| == 16;
    HoldsParts(h, key, done);
    FromLeZeros(part + [1], 15 - |part|);
    var t := MessageLimbs(padded, 0);
    KeyValue(key);
    MessageValue(padded, 0);
    StepCorrect(h, KeyLimbs(key), t);
    AccumulateNext(ClampedR(key), done, part);
    AbsorbParts(ClampedR(key), Accumulate(ClampedR(key), done), part);
    HoldsParts(Step(h, KeyLimbs(key), t), key, done + part);
  }

  lemma {:induction false} RunBlocksHolds(h: Limbs, key: Bytes, done: Bytes, m: Bytes)
    requires |key| >= 16 && |done| % 16 == 0 && |m| % 16 == 0 && Holds(h, key, done)
    ensures Holds(RunBlocks(h, KeyLimbs(key), 0x100_0000, m), key, done + m)
    decreases |m|
  {
    hide Step, MessageLimbs, Holds, KeyLimbs;
    if |m| == 0 {
      assert done + m == done;
    } else {
      StepAbsorbs(h, key, done, m[..16]);
      RunBlocksHolds(Step(h, KeyLimbs(key), MessageLimbs(m[..16], 0x100_0000)), key, done + m[..16], m[16..]);
      assert done + m[..16] + m[16..] == done + m;
    }
  }

  // ---- The object -------------------------------------------------------------------

  class Authenticator {
    ghost const key: Bytes
    ghost var done: Bytes       // the full blocks absorbed so far
    const r: Limbs
    const pad: Quad
    var h: Limbs
    const buffer: array<Byte>
    var leftover: nat

    /** The limbs hold the full blocks, the buffer holds the rest. */
    ghost predicate Valid()
      reads this, buffer
    {
      hide KeyLimbs, PadWords, Holds;
      && |key| == 32 && r == KeyLimbs(key) && pad == PadWords(key)
      && buffer.Length == 16 && leftover < 16
      && |done| % 16 == 0 && Holds(h, key, done)
    }

    /** Everything fed so far, in order. */
    ghost function Fed(): Bytes
      requires buffer.Length == 16 && leftover <= 16
      reads this, buffer
    {
      done + buffer[..leftover]
    }

    constructor (key: Bytes)
      requires |key| >= 32
      ensures Valid() && Fed() == [] && this.key == key[..32] && fresh(buffer)
    {
      hide KeyLimbs, PadWords, Holds;
      this.key := key[..32];
      this.done := [];
      this.r := KeyLimbs(key[..32]);
      this.pad := PadWords(key[..32]);
      this.h := Limbs(0, 0, 0, 0, 0);
      this.leftover := 0;
      this.buffer := new Byte[16](_ => 0);
      NothingHeld(key[..32]);
    }

    /** The loop over full blocks; `final` is set only for the padded last one. */
    method Blocks(m: Bytes, offset: nat, bytes: nat, final: bool)
      requires offset + bytes <= |m|
      modifies this`h
      ensures h == RunBlocks(old(h), r, if final then 0 else 0x100_0000, m[offset..offset + bytes])
    {
      hide Step, MessageLimbs;
      var hibit := if final then 0 else 0x100_0000;
      var o, rest := offset, bytes;
      while rest >= 16
        invariant offset <= o && o + rest == offset + bytes
        invariant RunBlocks(old(h), r, hibit, m[offset..offset + bytes]) == RunBlocks(h, r, hibit, m[o..o + rest])
      {
        assert m[o..o + rest][..16] == m[o..o + 16] && m[o..o + rest][16..] == m[o + 16..o + rest];
        h := Step(h, r, MessageLimbs(m[o..o + 16], hibit));
        o, rest := o + 16, rest - 16;
      }
    }

    method CopyIn(m: Bytes, offset: nat, count: nat)
      requires offset + count <= |m| && leftover + count <= buffer.Length
      modifies buffer, this`leftover
      ensures leftover == old(leftover) + count
      ensures buffer[..leftover] == old(buffer[..leftover]) + m[offset..offset + count]
    {
      var i := 0;
      while i < count
        invariant 0 <= i <= count
        invariant buffer[..leftover + i] == old(buffer[..leftover]) + m[offset..offset + i]
        modifies buffer
      {
        buffer[leftover + i] := m[offset + i];
        i := i + 1;
      }
      leftover := leftover + count;
    }

    /** However the bytes are cut into calls, only their concatenation matters. */
    method Update(m: Bytes, offset: nat, count: nat)
      requires Valid() && offset + count <= |m|
      modifies this`h, this`leftover, this`done, buffer
      ensures Valid() && Fed() == old(Fed()) + m[offset..offset + count]
    {
      hide *;
      ValidBounds();
      ghost var before := Fed();
      var o, rest := offset, count;
      if leftover > 0 {
        var want := if 16 - leftover < rest then 16 - leftover else rest;
        TopUp(m, o, want);
        o, rest := o + want, rest - want;
        if leftover > 0 {
          return;
        }
      }
      FeedRest(m, o, rest);
      Joined(before, m, offset, o, offset + count);
    }

    method FeedRest(m: Bytes, offset: nat, count: nat)
      requires Valid() && leftover == 0 && offset + count <= |m|
      modifies this`h, this`leftover, this`done, buffer
      ensures Valid() && Fed() == old(Fed()) + m[offset..offset + count]
    {
      hide *;
      ValidBounds();
      ghost var before := Fed();
      var o, rest := offset, count;
      if rest >= 16 {
        WholeBlocks(rest);
        var want := rest / 16 * 16;
        FeedBlocks(m, o, want);
        o, rest := o + want, rest - want;
      }
      assert Fed() == before + m[offset..o] by {
        ValidBounds();
        assert m[offset..offset] == [] && before + [] == before;
      }
      if rest > 0 {
        FeedTail(m, o, rest);
        Joined(before, m, offset, o, offset + count);
      }
    }

    lemma ValidBounds()
      requires Valid()
      ensures buffer.Length == 16 && leftover < 16
    {
    }

    /** Fill the waiting block; when it is full, absorb it. */
    method TopUp(m: Bytes, offset: nat, want: nat)
      requires Valid() && leftover > 0 && offset + want <= |m| && leftover + want <= 16
      modifies this`h, this`leftover, this`done, buffer
      ensures Valid() && Fed() == old(Fed()) + m[offset..offset + want]
      ensures leftover == if old(leftover) + want == 16 then 0 else old(leftover) + want
    {
      hide KeyLimbs, PadWords, Holds, RunBlocks;
      CopyIn(m, offset, want);
      if leftover < 16 {
        return;
      }
      ghost var block := buffer[..];
      assert block == buffer[..16];
      RunBlocksHolds(h, key, done, block);
      Blocks(buffer[..], 0, 16, false);
      assert block[0..0 + 16] == block;
      done := done + block;
      leftover := 0;
    }

    method FeedBlocks(m: Bytes, offset: nat, want: nat)
      requires Valid() && leftover == 0 && offset + want <= |m| && want % 16 == 0
      modifies this`h, this`done
      ensures Valid() && leftover == 0 && Fed() == old(Fed()) + m[offset..offset + want]
    {
      hide KeyLimbs, PadWords, Holds, RunBlocks;
      RunBlocksHolds(h, key, done, m[offset..offset + want]);
      Blocks(m, offset, want, false);
      done := done + m[offset..offset + want];
    }

    method FeedTail(m: Bytes, offset: nat, count: nat)
      requires Valid() && leftover == 0 && offset + count <= |m| && count < 16
      modifies this`leftover, buffer
      ensures Valid() && Fed() == old(Fed()) + m[offset..offset + count]
    {
      hide KeyLimbs, PadWords, Holds;
      CopyIn(m, offset, count);
    }

    /** Zeros up to the next multiple of 16. */
    method UpdatePadding(lengthSoFar: nat)
      requires Valid()
      modifies this`h, this`leftover, this`done, buffer
      ensures Valid() && Fed() == old(Fed()) + seq((16 - lengthSoFar % 16) % 16, _ => 0)
    {
      hide Valid, Fed;
      var rem := lengthSoFar % 16;
      if rem == 0 {
        return;
      }
      var zeros: Bytes := seq(16 - rem, _ => 0);
      Update(zeros, 0, |zeros|);
      assert zeros[0..0 + |zeros|] == zeros;
    }

    /** Append the 1 byte and the zeros that complete a short last block. */
    method PadBuffer()
      requires Valid() && leftover > 0
      modifies this`leftover, buffer
      ensures leftover == 16
      ensures buffer[..] == old(buffer[..leftover]) + [1] + seq(15 - old(leftover), _ => 0)
    {
      hide KeyLimbs, PadWords, Holds;
      ghost var part := buffer[..leftover];
      buffer[leftover] := 1;
      leftover := leftover + 1;
      while leftover < 16
        invariant |part| < leftover <= 16
        invariant buffer[..leftover] == part + [1] + seq(leftover - |part| - 1, _ => 0)
        modifies buffer, this`leftover
      {
        buffer[leftover] := 0;
        leftover := leftover + 1;
      }
      assert buffer[..] == buffer[..16];
    }

    /** A short last block is padded and absorbed without the high bit. */
    method AbsorbLast()
      requires Valid()
      modifies this`h, this`leftover, buffer
      ensures Holds(h, key, old(Fed()))
    {
      hide KeyLimbs, PadWords, Holds, RunBlocks, Step, MessageLimbs;
      ghost var part := buffer[..leftover];
      if leftover > 0 {
        PadBuffer();
        var padded := buffer[..];
        LastStepAbsorbs(h, key, done, part);
        OneBlock(h, r, 0, padded);
        assert padded[0..0 + 16] == padded;
        Blocks(padded, 0, 16, true);
      } else {
        assert done + part == done;
      }
    }

    /** Writes the RFC 8439 tag of everything fed. */
    method Finish(mac: array<Byte>)
      requires Valid() && mac.Length == 16 && mac != buffer
      modifies this`h, this`leftover, buffer, mac
      ensures mac[..] == Tag(key, old(Fed()))
    {
      hide *;
      ValidKeys();
      ghost var all := Fed();
      AbsorbLast();
      FinishTag(h, key, all);
      FinishParts(h, key);
      var bytes := QuadBytes(AddPad(Collapse(Select(Normalize(h))), pad));
      WriteOut(mac, bytes);
    }

    lemma ValidKeys()
      requires Valid()
      ensures |key| == 32 && pad == PadWords(key) && buffer.Length == 16 && leftover < 16
    {
    }

    method WriteOut(mac: array<Byte>, bytes: Bytes)
      requires mac.Length == 16 == |bytes|
      modifies mac
      ensures mac[..] == bytes
    {
      for i := 0 to 16
        invariant mac[..i] == bytes[..i]
      {
        mac[i] := bytes[i];
      }
    }
  }

  lemma Joined(before: Bytes, m: Bytes, a: nat, b: nat, c: nat)
    requires a <= b <= c <= |m|
    ensures before + m[a..b] + m[b..c] == before + m[a..c]
  {
    assert m[a..b] + m[b..c] == m[a..c];
  }

  lemma WholeBlocks(n: nat)
    ensures var want := n / 16 * 16; want % 16 == 0 && want <= n < want + 16
  {
  }

  lemma OneBlock(h: Limbs, r: Limbs, hibit: nat, block: Bytes)
    requires |block| == 16
    ensures RunBlocks(h, r, hibit, block) == Step(h, r, MessageLimbs(block, hibit))
  {
    hide Step, MessageLimbs;
    assert block[..16] == block && block[16..] == [];
  }

  lemma FinishTag(h: Limbs, key: Bytes, all: Bytes)
    requires |key| >= 32 && Holds(h, key, all)
    ensures FinishBytes(h, key) == Tag(key, all)
  {
    hide *;
    HoldsParts(h, key, all);
    TagParts(key, all);
    FinishCorrect(h, key, Accumulate(ClampedR(key), all));
  }

  lemma TagParts(key: Bytes, m: Bytes)
    requires |key| >= 32
    ensures Tag(key, m) == Le((Accumulate(ClampedR(key), m) + FromLe(key[16..32])) % TWO128, 16)
  {
    hide ClampedR, Accumulate, Le, FromLe;
  }
}
