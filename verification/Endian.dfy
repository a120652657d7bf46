/**
 Little- and big-endian byte strings. The UDP headers, the reflect codec and
 Poly1305 are little-endian; the AEAD counter and the delta frames are
 big-endian.
 */
module Endian {
  import opened Words

  function Pow256(n: nat): (r: nat)
    ensures r >= 1
  {
    if n == 0 then 1 else 256 * Pow256(n - 1)
  }

  lemma Pow256Values()
    ensures Pow256(1) == 0x100 && Pow256(2) == 0x1_0000
    ensures Pow256(4) == 0x1_0000_0000
    ensures Pow256(8) == 0x1_0000_0000_0000_0000
    ensures Pow256(16) == 0x1_00000000_00000000_00000000_00000000
  {
    assert Pow256(3) == 0x100_0000;
    assert Pow256(5) == 0x100_0000_0000;
    assert Pow256(6) == 0x1_0000_0000_0000;
    assert Pow256(7) == 0x100_0000_0000_0000;
    Pow256Add(8, 8);
  }

  lemma {:induction false} Pow256Add(a: nat, b: nat)
    ensures Pow256(a + b) == Pow256(a) * Pow256(b)
  {
    if a == 0 {
    } else {
      Pow256Add(a - 1, b);
    }
  }

  /** The low `n` bytes of `v`, least significant first. */
  function Le(v: nat, n: nat): (b: Bytes)
    ensures |b| == n
    decreases n
  {
    if n == 0 then [] else [v % 256] + Le(v / 256, n - 1)
  }

  function FromLe(b: Bytes): (v: nat)
  {
    if |b| == 0 then 0 else b[0] + 256 * FromLe(b[1..])
  }

  /** The low `n` bytes of `v`, most significant first. */
  function Be(v: nat, n: nat): (b: Bytes)
    ensures |b| == n
    decreases n
  {
    if n == 0 then [] else Be(v / 256, n - 1) + [v % 256]
  }

  function FromBe(b: Bytes): (v: nat)
  {
    if |b| == 0 then 0 else 256 * FromBe(b[..|b| - 1]) + b[|b| - 1]
  }

  lemma {:induction false} FromLeBound(b: Bytes)
    ensures FromLe(b) < Pow256(|b|)
  {
    if |b| == 0 {
    } else {
      FromLeBound(b[1..]);
    }
  }

  lemma {:induction false} FromBeBound(b: Bytes)
    ensures FromBe(b) < Pow256(|b|)
  {
    if |b| == 0 {
    } else {
      FromBeBound(b[..|b| - 1]);
    }
  }

  lemma {:induction false} LeRoundTrip(v: nat, n: nat)
    requires v < Pow256(n)
    ensures FromLe(Le(v, n)) == v
    decreases n
  {
    if n == 0 {
    } else {
      LeRoundTrip(v / 256, n - 1);
      assert Le(v, n)[1..] == Le(v / 256, n - 1);
    }
  }

  lemma {:induction false} BeRoundTrip(v: nat, n: nat)
    requires v < Pow256(n)
    ensures FromBe(Be(v, n)) == v
    decreases n
  {
    if n == 0 {
    } else {
      BeRoundTrip(v / 256, n - 1);
      assert Be(v, n)[..n - 1] == Be(v / 256, n - 1);
    }
  }

  lemma LeStep(v: nat, n: nat)
    requires n > 0
    ensures Le(v, n) == [v % 256] + Le(v / 256, n - 1)
  {
  }

  lemma LeNone(v: nat)
    ensures Le(v, 0) == []
  {
  }

  /** Equal-length strings with the same little-endian value are the same string. */
  lemma {:induction false} LeOfFromLe(b: Bytes)
    ensures Le(FromLe(b), |b|) == b
  {
    if |b| == 0 {
    } else {
      LeOfFromLe(b[1..]);
      assert FromLe(b) / 256 == FromLe(b[1..]) && FromLe(b) % 256 == b[0];
    }
  }

  lemma {:induction false} FromLeConcat(a: Bytes, b: Bytes)
    ensures FromLe(a + b) == FromLe(a) + Pow256(|a|) * FromLe(b)
  {
    if |a| == 0 {
      assert a + b == b;
    } else {
      assert (a + b)[1..] == a[1..] + b;
      FromLeConcat(a[1..], b);
      assert Pow256(|a|) * FromLe(b) == 256 * (Pow256(|a| - 1) * FromLe(b));
    }
  }

  // ---- A piece of a string ------------------------------------------------------

  /** `piece` stands at `pos` in `data`. */
  ghost predicate At<T>(data: seq<T>, pos: nat, piece: seq<T>) {
    pos + |piece| <= |data| && data[pos..pos + |piece|] == piece
  }

  lemma AtSplit<T>(data: seq<T>, pos: nat, a: seq<T>, b: seq<T>)
    requires At(data, pos, a + b)
    ensures At(data, pos, a) && At(data, pos + |a|, b)
  {
    var whole := data[pos..pos + |a + b|];
    assert whole[..|a|] == a && whole[|a|..] == b;
    assert data[pos..pos + |a|] == whole[..|a|];
    assert data[pos + |a|..pos + |a| + |b|] == whole[|a|..];
  }

  lemma AtIs<T>(data: seq<T>, pos: nat, piece: seq<T>)
    requires At(data, pos, piece)
    ensures pos + |piece| <= |data| && data[pos..pos + |piece|] == piece
  {
  }

  lemma WholeAt<T>(data: seq<T>)
    ensures At(data, 0, data)
  {
    assert data[0..0 + |data|] == data;
  }

  // ---- The counter of a UDP packet -----------------------------------------------------

  /** `PutU64BE`: most significant byte first, written from the last byte back. */
  method PutU64BE(b: array<Byte>, o: nat, v: U64)
    requires o + 8 <= b.Length
    modifies b
    ensures b[o..o + 8] == Be(v, 8)
    ensures b[..o] == old(b[..o]) && b[o + 8..] == old(b[o + 8..])
  {
    var i, rest := 0, v;
    assert Be(v, 8) == Be(v, 8) + b[o + 8..o + 8];
    while i < 8
      invariant 0 <= i <= 8 && rest >= 0
      invariant b[..o] == old(b[..o]) && b[o + 8..] == old(b[o + 8..])
      invariant Be(v, 8) == Be(rest, 8 - i) + b[o + 8 - i..o + 8]
    {
      ghost var done := b[o + 8 - i..o + 8];
      assert Be(rest, 8 - i) == Be(rest / 256, 8 - i - 1) + [rest % 256];
      b[o + 7 - i] := rest % 256;
      assert b[o + 7 - i..o + 8] == [rest % 256] + done;
      rest := rest / 256;
      i := i + 1;
    }
  }

  /** `GetU64BE`: the inverse of `PutU64BE` on the same offset. */
  method GetU64BE(b: Bytes, o: nat) returns (v: nat)
    requires o + 8 <= |b|
    ensures v == FromBe(b[o..o + 8])
  {
    v := 0;
    for i := 0 to 8
      invariant v == FromBe(b[o..o + i])
    {
      assert b[o..o + i + 1][..i] == b[o..o + i];
      v := v * 256 + b[o + i];
    }
  }
}
