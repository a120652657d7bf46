/**
 ChaCha20-Poly1305 (ChaCha20Poly1305.cs) over an arbitrary 64-byte block function:
 the keystream XOR in place, the MAC input of section 2.8 of RFC 8439, Seal and
 Open with their error paths, and the nonce of UdpCrypto.cs. The result is an
 authenticated cipher of the shape the two-sided transport runs assume.
 */
module Aead {
  import opened Words
  import opened Endian
  import opened Poly1305Limbs
  import opened Poly1305
  import R = UdpRuns

  const KEY_SIZE := 32
  const NONCE_SIZE := 12
  const TAG_SIZE := 16

  /** `ChaCha20.Block`: a key, a nonce and a 32-bit counter give 64 bytes. */
  type BlockFunction = f: (Bytes, Bytes, U32) -> Bytes | forall k, n, c :: |f(k, n, c)| == 64
    ghost witness ZeroBlock

  ghost function ZeroBlock(k: Bytes, n: Bytes, c: U32): (b: Bytes)
    ensures |b| == 64
  {
    seq(64, _ => 0)
  }

  // ---- The stream cipher ----------------------------------------------------------

  /** Byte `i` of the keystream that starts at block `counter`; the counter wraps at 32 bits. */
  function KeyByte(f: BlockFunction, key: Bytes, nonce: Bytes, counter: U32, i: nat): Byte {
    f(key, nonce, (counter + i / 64) % 0x1_0000_0000)[i % 64]
  }

  function XorByte(a: Byte, b: Byte): Byte {
    Pow2Values();
    XorBound(a, b, 8);
    Xor(a, b)
  }

  function Stream(f: BlockFunction, key: Bytes, nonce: Bytes, counter: U32, data: Bytes): (r: Bytes)
    ensures |r| == |data|
  {
    seq(|data|, i requires 0 <= i < |data| => XorByte(data[i], KeyByte(f, key, nonce, counter, i)))
  }

  /** The cipher is its own inverse. */
  lemma StreamTwice(f: BlockFunction, key: Bytes, nonce: Bytes, counter: U32, data: Bytes)
    ensures Stream(f, key, nonce, counter, Stream(f, key, nonce, counter, data)) == data
  {
    hide KeyByte;
    var s := Stream(f, key, nonce, counter, data);
    forall i | 0 <= i < |data|
      ensures Stream(f, key, nonce, counter, s)[i] == data[i]
    {
      XorTwice(data[i], KeyByte(f, key, nonce, counter, i));
    }
  }

  lemma BlockPosition(done: nat, blocks: nat, i: nat)
    requires done == 64 * blocks && i < 64
    ensures (done + i) / 64 == blocks && (done + i) % 64 == i
  {
  }

  /** What the buffer holds once `done` of the `count` bytes at `offset` are ciphered. */
  ghost predicate Ciphered(now: Bytes, was: Bytes, f: BlockFunction, key: Bytes, nonce: Bytes, counter: U32,
                           offset: nat, done: nat)
    requires offset + done <= |was|
  {
    && |now| == |was|
    && (forall i | 0 <= i < done ::
          now[offset + i] == XorByte(was[offset + i], KeyByte(f, key, nonce, counter, i)))
    && (forall i | 0 <= i < offset || offset + done <= i < |was| :: now[i] == was[i])
  }

  /** One block of keystream into the buffer. */
  method XorBlock(f: BlockFunction, key: Bytes, nonce: Bytes, ghost start: U32, counter: U32, buf: array<Byte>,
                  offset: nat, done: nat, n: nat, ghost was: Bytes, ghost blocks: nat)
    requires n <= 64 && offset + done + n <= buf.Length == |was| && done == 64 * blocks
    requires counter == (start + blocks) % 0x1_0000_0000
    requires Ciphered(buf[..], was, f, key, nonce, start, offset, done)
    modifies buf
    ensures Ciphered(buf[..], was, f, key, nonce, start, offset, done + n)
  {
    hide KeyByte;
    var block := f(key, nonce, counter);
    for i := 0 to n
      invariant Ciphered(buf[..], was, f, key, nonce, start, offset, done + i)
    {
      BlockPosition(done, blocks, i);
      KeyByteIs(f, key, nonce, start, done + i);
      buf[offset + done + i] := XorByte(buf[offset + done + i], block[i]);
    }
  }

  lemma KeyByteIs(f: BlockFunction, key: Bytes, nonce: Bytes, counter: U32, i: nat)
    ensures KeyByte(f, key, nonce, counter, i) == f(key, nonce, (counter + i / 64) % 0x1_0000_0000)[i % 64]
  {
  }

  /** `XorKeyStream`: in place, 64 bytes at a time, touching nothing outside the range. */
  method XorKeyStream(f: BlockFunction, key: Bytes, nonce: Bytes, counter: U32, buf: array<Byte>, offset: nat,
                      count: nat)
    requires offset + count <= buf.Length
    modifies buf
    ensures buf[offset..offset + count] == Stream(f, key, nonce, counter, old(buf[offset..offset + count]))
    ensures buf[..offset] == old(buf[..offset]) && buf[offset + count..] == old(buf[offset + count..])
  {
    hide KeyByte;
    ghost var was, blocks := buf[..], 0;
    var done, c := 0, counter;
    while done < count
      invariant done <= count && (done == 64 * blocks || done == count)
      invariant c == (counter + blocks) % 0x1_0000_0000
      invariant Ciphered(buf[..], was, f, key, nonce, counter, offset, done)
    {
      var n := if 64 < count - done then 64 else count - done;
      XorBlock(f, key, nonce, counter, c, buf, offset, done, n, was, blocks);
      done := done + n;
      c := if c == 0xFFFF_FFFF then 0 else c + 1;
      blocks := blocks + 1;
    }
  }

  // ---- The MAC input ----------------------------------------------------------------

  function Padding(n: nat): Bytes {
    seq((16 - n % 16) % 16, _ => 0)
  }

  /** Section 2.8 of RFC 8439: both strings padded to 16 bytes, then both lengths. */
  function MacInput(aad: Bytes, ct: Bytes): Bytes {
    aad + Padding(|aad|) + ct + Padding(|ct|) + (Le(|aad|, 8) + Le(|ct|, 8))
  }

  /** No byte can move between header and ciphertext without changing what is authenticated. */
  lemma MacInputInjective(a: Bytes, c: Bytes, a': Bytes, c': Bytes)
    requires |a| < Pow256(8) && |c| < Pow256(8) && |a'| < Pow256(8) && |c'| < Pow256(8)
    requires MacInput(a, c) == MacInput(a', c')
    ensures a == a' && c == c'
  {
    hide Pow256, Le, FromLe;
    var m := MacInput(a, c);
    MacLengths(a, c);
    MacLengths(a', c');
    var p := a + Padding(|a|);
    assert m[..|a|] == a && m[|p|..|p| + |c|] == c;
    assert m[..|a'|] == a' && m[|p|..|p| + |c'|] == c';
  }

  lemma MacLengths(a: Bytes, c: Bytes)
    requires |a| < Pow256(8) && |c| < Pow256(8)
    ensures var m := MacInput(a, c);
            |m| >= 16 && FromLe(m[|m| - 16..|m| - 8]) == |a| && FromLe(m[|m| - 8..]) == |c|
  {
    hide Pow256, Le, FromLe;
    var m := MacInput(a, c);
    LeRoundTrip(|a|, 8);
    LeRoundTrip(|c|, 8);
    assert m[|m| - 16..|m| - 8] == Le(|a|, 8);
    assert m[|m| - 8..] == Le(|c|, 8);
  }

  /** `WriteUInt64LE` into a buffer of its own. */
  method WriteUInt64LE(v: nat) returns (b: Bytes)
    ensures b == Le(v, 8)
  {
    hide Le;
    b := [];
    var rest := v;
    for i := 0 to 8
      invariant |b| == i && Le(v, 8) == b + Le(rest, 8 - i)
    {
      LeStep(rest, 8 - i);
      b := b + [rest % 256];
      rest := rest / 256;
    }
  }

  /** `ComputeTag` authenticates exactly the MAC input of the first `ctLen` bytes. */
  method ComputeTag(polyKey: Bytes, aad: Bytes, ct: Bytes, ctLen: nat) returns (tag: Bytes)
    requires |polyKey| == 64 && ctLen <= |ct|
    ensures tag == Tag(polyKey[..32], MacInput(aad, ct[..ctLen]))
  {
    hide Tag, Le, Authenticator.Valid, Authenticator.Fed;
    var poly := new Authenticator(polyKey);
    poly.Update(aad, 0, |aad|);
    poly.UpdatePadding(|aad|);
    poly.Update(ct, 0, ctLen);
    poly.UpdatePadding(ctLen);
    var first := WriteUInt64LE(|aad|);
    var second := WriteUInt64LE(ctLen);
    var lengths := first + second;
    poly.Update(lengths, 0, 16);
    poly.ValidBounds();
    MacInputSteps(aad, ct, ctLen, lengths);
    assert poly.Fed() == MacInput(aad, ct[..ctLen]);
    var mac := new Byte[16];
    poly.Finish(mac);
    tag := mac[..];
  }

  lemma MacInputSteps(aad: Bytes, ct: Bytes, ctLen: nat, lengths: Bytes)
    requires ctLen <= |ct| && lengths == Le(|aad|, 8) + Le(ctLen, 8)
    ensures [] + aad[0..|aad|] + seq((16 - |aad| % 16) % 16, _ => 0) + ct[0..ctLen]
            + seq((16 - ctLen % 16) % 16, _ => 0) + lengths[0..16] == MacInput(aad, ct[..ctLen])
  {
    hide Le;
    assert [] + aad[0..|aad|] == aad;
    assert ct[0..ctLen] == ct[..ctLen] && lengths[0..16] == lengths;
  }

  // ---- Seal and Open ------------------------------------------------------------------

  function Sealed(f: BlockFunction, key: Bytes, nonce: Bytes, plaintext: Bytes, aad: Bytes): (r: Bytes)
    ensures |r| == |plaintext| + TAG_SIZE
  {
    var ct := Stream(f, key, nonce, 1, plaintext);
    ct + Tag(f(key, nonce, 0)[..32], MacInput(aad, ct))
  }

  /** What decryption promises: the plaintext whose sealing is exactly these bytes, if there is one. */
  function Opened(f: BlockFunction, key: Bytes, nonce: Bytes, sealed: Bytes, aad: Bytes): Option<Bytes> {
    if |sealed| < TAG_SIZE then None
    else
      var ct := sealed[..|sealed| - TAG_SIZE];
      if sealed[|sealed| - TAG_SIZE..] != Tag(f(key, nonce, 0)[..32], MacInput(aad, ct)) then None
      else Some(Stream(f, key, nonce, 1, ct))
  }

  /** Opening inverts sealing, and accepts nothing but the sealing of what it returns. */
  lemma OpenInvertsSeal(f: BlockFunction, key: Bytes, nonce: Bytes, sealed: Bytes, aad: Bytes, plaintext: Bytes)
    ensures Opened(f, key, nonce, sealed, aad) == Some(plaintext) <==> sealed == Sealed(f, key, nonce, plaintext, aad)
  {
    hide Tag, MacInput, Stream;
    StreamTwice(f, key, nonce, 1, plaintext);
    if |sealed| >= TAG_SIZE {
      var ct := sealed[..|sealed| - TAG_SIZE];
      StreamTwice(f, key, nonce, 1, ct);
      assert sealed == ct + sealed[|sealed| - TAG_SIZE..];
    }
  }

  /** The keystream block that ciphers byte `i` of a message: block 0 is kept for the one-time key. */
  function BlockOf(i: nat): U32 {
    (1 + i / 64) % 0x1_0000_0000
  }

  /** Section 2.8 of RFC 8439, byte by byte: the ciphertext under blocks 1, 2, ..., then the tag under block 0. */
  lemma SealedBytes(f: BlockFunction, key: Bytes, nonce: Bytes, plaintext: Bytes, aad: Bytes)
    ensures var r, n := Sealed(f, key, nonce, plaintext, aad), |plaintext|;
            && (forall i :: 0 <= i < n ==> r[i] == XorByte(plaintext[i], f(key, nonce, BlockOf(i))[i % 64]))
            && r[n..] == Tag(f(key, nonce, 0)[..32], MacInput(aad, r[..n]))
  {
    hide Tag, MacInput, XorByte;
    var r, ct := Sealed(f, key, nonce, plaintext, aad), Stream(f, key, nonce, 1, plaintext);
    assert r[..|plaintext|] == ct;
    forall i | 0 <= i < |plaintext|
      ensures r[i] == XorByte(plaintext[i], f(key, nonce, BlockOf(i))[i % 64])
    {
      assert r[i] == ct[i];
    }
  }

  const LONGEST := 64 * 0xFFFF_FFFF

  /** No byte of a message is ciphered with the block of the one-time key exactly up to 256 GiB less 64 bytes. */
  lemma KeyBlockUnused(n: nat)
    ensures (forall i: nat :: i < n ==> BlockOf(i) != 0) <==> n <= LONGEST
  {
    if n > LONGEST {
      assert LONGEST / 64 == 0xFFFF_FFFF;
      assert BlockOf(LONGEST) == 0;
    }
  }

  /** So the ciphertext says nothing of the one-time key: it is the same whatever block 0 is. */
  lemma CiphertextIgnoresKeyBlock(f: BlockFunction, g: BlockFunction, key: Bytes, nonce: Bytes, plaintext: Bytes,
                                  aad: Bytes)
    requires |plaintext| <= LONGEST && forall c: U32 :: c != 0 ==> f(key, nonce, c) == g(key, nonce, c)
    ensures Sealed(f, key, nonce, plaintext, aad)[..|plaintext|] == Sealed(g, key, nonce, plaintext, aad)[..|plaintext|]
  {
    hide Sealed, XorByte, BlockOf, Tag;
    SealedBytes(f, key, nonce, plaintext, aad);
    SealedBytes(g, key, nonce, plaintext, aad);
    KeyBlockUnused(|plaintext|);
  }

  /** `Seal`; `None` stands for the argument exception, a null input for the empty string. */
  method Seal(f: BlockFunction, key: Option<Bytes>, nonce: Option<Bytes>, plaintext: Option<Bytes>, aad: Option<Bytes>)
    returns (r: Option<Bytes>)
    ensures r == if key.Some? && |key.value| == KEY_SIZE && nonce.Some? && |nonce.value| == NONCE_SIZE
                 then Some(Sealed(f, key.value, nonce.value, OrEmpty(plaintext), OrEmpty(aad)))
                 else None
  {
    hide Tag, MacInput, Stream;
    if key.None? || |key.value| != KEY_SIZE || nonce.None? || |nonce.value| != NONCE_SIZE {
      return None;
    }
    var plain := OrEmpty(plaintext);
    var polyKey := f(key.value, nonce.value, 0);
    var output := new Byte[|plain| + TAG_SIZE](_ => 0);
    CopyInto(output, 0, plain);
    assert output[0..0 + |plain|] == plain;
    XorKeyStream(f, key.value, nonce.value, 1, output, 0, |plain|);
    ghost var ct := output[..|plain|];
    assert output[0..0 + |plain|] == ct;
    var tag := ComputeTag(polyKey, OrEmpty(aad), output[..], |plain|);
    assert output[..][..|plain|] == ct;
    CopyInto(output, |plain|, tag);
    assert output[..] == ct + tag;
    r := Some(output[..]);
  }

  function OrEmpty(b: Option<Bytes>): Bytes {
    if b.Some? then b.value else []
  }

  method CopyInto(dst: array<Byte>, offset: nat, src: Bytes)
    requires offset + |src| <= dst.Length
    modifies dst
    ensures dst[offset..offset + |src|] == src
    ensures dst[..offset] == old(dst[..offset]) && dst[offset + |src|..] == old(dst[offset + |src|..])
  {
    for i := 0 to |src|
      invariant dst[offset..offset + i] == src[..i]
      invariant dst[..offset] == old(dst[..offset]) && dst[offset + |src|..] == old(dst[offset + |src|..])
    {
      dst[offset + i] := src[i];
    }
  }

  /** The comparison that never returns early: OR of the XORs of all bytes. */
  method SameTag(expected: Bytes, sealed: Bytes, ctLen: nat) returns (same: bool)
    requires |expected| == TAG_SIZE && |sealed| == ctLen + TAG_SIZE
    ensures same <==> expected == sealed[ctLen..]
  {
    var diff := 0;
    for i := 0 to TAG_SIZE
      invariant diff >= 0
      invariant diff == 0 <==> expected[..i] == sealed[ctLen..ctLen + i]
    {
      assert expected[..i + 1] == expected[..i] + [expected[i]];
      assert sealed[ctLen..ctLen + i + 1] == sealed[ctLen..ctLen + i] + [sealed[ctLen + i]];
      diff := Or(diff, Xor(expected[i], sealed[ctLen + i]));
    }
    assert expected[..TAG_SIZE] == expected && sealed[ctLen..ctLen + TAG_SIZE] == sealed[ctLen..];
    same := diff == 0;
  }

  /** `Open`: every failure looks the same to the caller. */
  method Open(f: BlockFunction, key: Option<Bytes>, nonce: Option<Bytes>, sealed: Option<Bytes>, aad: Option<Bytes>)
    returns (r: Option<Bytes>)
    ensures r == if && key.Some? && |key.value| == KEY_SIZE && nonce.Some? && |nonce.value| == NONCE_SIZE
                    && sealed.Some?
                 then Opened(f, key.value, nonce.value, sealed.value, OrEmpty(aad))
                 else None
  {
    hide Tag, MacInput, Stream;
    if key.None? || |key.value| != KEY_SIZE || nonce.None? || |nonce.value| != NONCE_SIZE {
      return None;
    }
    if sealed.None? || |sealed.value| < TAG_SIZE {
      return None;
    }
    var ctLen := |sealed.value| - TAG_SIZE;
    var polyKey := f(key.value, nonce.value, 0);
    var expected := ComputeTag(polyKey, OrEmpty(aad), sealed.value, ctLen);
    var same := SameTag(expected, sealed.value, ctLen);
    if !same {
      return None;
    }
    var plaintext := new Byte[ctLen](_ => 0);
    CopyInto(plaintext, 0, sealed.value[..ctLen]);
    assert plaintext[0..0 + ctLen] == sealed.value[..ctLen];
    XorKeyStream(f, key.value, nonce.value, 1, plaintext, 0, ctLen);
    assert plaintext[0..0 + ctLen] == plaintext[..];
    r := Some(plaintext[..]);
  }

  // ---- The transport's keys -------------------------------------------------------------

  /** `NonceFor`: four zero bytes, then the packet counter, most significant byte first. */
  function Nonce(counter: U64): (n: Bytes)
    ensures |n| == NONCE_SIZE
  {
    [0, 0, 0, 0] + Be(counter, 8)
  }

  /** Distinct counters never share a nonce. */
  lemma NonceInjective(c: U64, c': U64)
    requires Nonce(c) == Nonce(c')
    ensures c == c'
  {
    hide Be, FromBe;
    Pow256Values();
    BeRoundTrip(c, 8);
    BeRoundTrip(c', 8);
    assert Nonce(c)[4..] == Be(c, 8) && Nonce(c')[4..] == Be(c', 8);
  }

  function KeysFor(f: BlockFunction, key: Bytes, token: U32): R.Keys {
    R.Keys(token,
           (c: U64, body: Bytes, aad: Bytes) => Sealed(f, key, Nonce(c), body, aad),
           (c: U64, sealed: Bytes, aad: Bytes) => Opened(f, key, Nonce(c), sealed, aad))
  }

  /** This cipher is one the transport runs are stated for. */
  lemma CipherIsCorrect(f: BlockFunction, key: Bytes, token: U32)
    ensures R.Correct(KeysFor(f, key, token))
  {
    hide Tag, MacInput, Stream, Sealed, Opened, Nonce;
    forall c: U64, body: Bytes, aad: Bytes
      ensures Opened(f, key, Nonce(c), Sealed(f, key, Nonce(c), body, aad), aad) == Some(body)
    {
      OpenInvertsSeal(f, key, Nonce(c), Sealed(f, key, Nonce(c), body, aad), aad, body);
    }
  }
}
