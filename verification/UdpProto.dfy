/**
 The cleartext headers of the UDP data packets (UdpProto.cs): type, version,
 token, for reliable packets a 16-bit sequence, and the AEAD counter. The
 header is also the AEAD's additional authenticated data.
 */
module UdpProto {
  import opened Words
  import opened Endian

  const VERSION: Byte := 2
  const TAG_SIZE: nat := 16
  const ACK_BODY_SIZE: nat := 6

  datatype Kind = Unreliable | Reliable | Ack | Disconnect

  function TypeByte(kind: Kind): Byte {
    match kind
    case Unreliable => 0
    case Reliable => 1
    case Ack => 2
    case Disconnect => 5
  }

  function HeaderSize(kind: Kind): nat {
    if kind == Reliable then 16 else 14
  }

  /** What a data packet says before its sealed body; `sequence` is 0 unless reliable. */
  datatype Fields = Fields(token: U32, sequence: U16, counter: U64, aad: Bytes, sealed: Bytes)

  /** `EncodeReliableHeader` and its siblings. */
  function Header(kind: Kind, token: U32, sequence: U16, counter: U64): (h: Bytes)
    ensures |h| == HeaderSize(kind)
  {
    [TypeByte(kind), VERSION] + Le(token, 4) + (if kind == Reliable then Le(sequence, 2) else []) + Be(counter, 8)
  }

  /** `TryDecodeReliable` and its siblings; the type byte was matched by the caller. */
  function TryDecode(kind: Kind, data: Bytes): (r: Option<Fields>)
    ensures r.Some? ==> r.value.aad + r.value.sealed == data && |r.value.aad| == HeaderSize(kind)
  {
    var size := HeaderSize(kind);
    if |data| < size + TAG_SIZE || data[1] != VERSION then None
    else
      FieldBounds(data, size);
      Some(Fields(FromLe(data[2..6]), if kind == Reliable then FromLe(data[6..8]) else 0,
                  FromBe(data[size - 8..size]), data[..size], data[size..]))
  }

  lemma FieldBounds(data: Bytes, size: nat)
    requires 14 <= size <= |data|
    ensures FromLe(data[2..6]) < 0x1_0000_0000
    ensures FromLe(data[6..8]) < 0x1_0000
    ensures FromBe(data[size - 8..size]) < 0x1_0000_0000_0000_0000
  {
    Pow256Values();
    FromLeBound(data[2..6]);
    FromLeBound(data[6..8]);
    FromBeBound(data[size - 8..size]);
  }

  /** Decoding an encoded header followed by any sealed body returns every field. */
  lemma DecodeInvertsEncode(kind: Kind, token: U32, sequence: U16, counter: U64, sealed: Bytes)
    requires kind != Reliable ==> sequence == 0
    requires |sealed| >= TAG_SIZE
    ensures var h := Header(kind, token, sequence, counter);
            TryDecode(kind, h + sealed) == Some(Fields(token, sequence, counter, h, sealed))
    ensures (Header(kind, token, sequence, counter) + sealed)[0] == TypeByte(kind)
  {
    hide Le, FromLe, Be, FromBe, Pow256;
    var h := Header(kind, token, sequence, counter);
    var data, size := h + sealed, HeaderSize(kind);
    Pow256Values();
    LeRoundTrip(token, 4);
    LeRoundTrip(sequence, 2);
    BeRoundTrip(counter, 8);
    assert data[..size] == h && data[size..] == sealed;
    assert data[2..6] == h[2..6] == Le(token, 4);
    assert kind == Reliable ==> data[6..8] == h[6..8] == Le(sequence, 2);
    assert data[size - 8..size] == h[size - 8..size] == Be(counter, 8);
  }

  /** `EncodeAckBody` / `TryDecodeAckBody`. */
  function AckBody(ackSeq: U16, ackBits: U32): (b: Bytes)
    ensures |b| == ACK_BODY_SIZE
  {
    Le(ackSeq, 2) + Le(ackBits, 4)
  }

  datatype AckFields = AckFields(ackSeq: U16, ackBits: U32)

  function TryDecodeAckBody(body: Bytes): (r: Option<AckFields>)
    ensures r.None? <==> |body| < ACK_BODY_SIZE
  {
    if |body| < ACK_BODY_SIZE then None
    else
      AckBounds(body);
      Some(AckFields(FromLe(body[0..2]), FromLe(body[2..6])))
  }

  lemma AckBounds(body: Bytes)
    requires |body| >= 6
    ensures FromLe(body[0..2]) < 0x1_0000 && FromLe(body[2..6]) < 0x1_0000_0000
  {
    Pow256Values();
    FromLeBound(body[0..2]);
    FromLeBound(body[2..6]);
  }

  lemma AckBodyRoundTrip(ackSeq: U16, ackBits: U32)
    ensures TryDecodeAckBody(AckBody(ackSeq, ackBits)) == Some(AckFields(ackSeq, ackBits))
  {
    var b := AckBody(ackSeq, ackBits);
    Pow256Values();
    LeRoundTrip(ackSeq, 2);
    LeRoundTrip(ackBits, 4);
    assert b[0..2] == Le(ackSeq, 2) && b[2..6] == Le(ackBits, 4);
  }

  /** The header as the source builds it: an array of fixed size filled by offset. */
  method EncodeHeader(kind: Kind, token: U32, sequence: U16, counter: U64) returns (b: array<Byte>)
    ensures fresh(b) && b[..] == Header(kind, token, sequence, counter)
  {
    hide Le, Be;
    var size := HeaderSize(kind);
    b := new Byte[size](_ => 0);
    b[0], b[1] := TypeByte(kind), VERSION;
    b[2], b[3], b[4], b[5] := token % 256, token / 256 % 256, token / 256 / 256 % 256, token / 256 / 256 / 256 % 256;
    if kind == Reliable {
      b[6], b[7] := sequence % 256, sequence / 256 % 256;
    }
    FrontIs(b[..size - 8], kind, token, sequence);
    PutU64BE(b, size - 8, counter);
    assert b[..] == b[..size - 8] + b[size - 8..size];
  }

  /** The fields before the counter, byte by byte. */
  lemma FrontIs(front: Bytes, kind: Kind, token: U32, sequence: U16)
    requires |front| == HeaderSize(kind) - 8 && front[0] == TypeByte(kind) && front[1] == VERSION
    requires front[2] == token % 256 && front[3] == token / 256 % 256
    requires front[4] == token / 256 / 256 % 256 && front[5] == token / 256 / 256 / 256 % 256
    requires kind == Reliable ==> front[6] == sequence % 256 && front[7] == sequence / 256 % 256
    ensures front == [TypeByte(kind), VERSION] + Le(token, 4) + if kind == Reliable then Le(sequence, 2) else []
  {
    hide Le;
    LeFour(token);
    LeTwo(sequence);
  }

  lemma LeTwo(v: nat)
    ensures Le(v, 2) == [v % 256, v / 256 % 256]
  {
    hide Le;
    LeStep(v, 2);
    LeStep(v / 256, 1);
    LeNone(v / 256 / 256);
  }

  lemma LeFour(v: nat)
    ensures Le(v, 4) == [v % 256, v / 256 % 256, v / 256 / 256 % 256, v / 256 / 256 / 256 % 256]
  {
    hide Le;
    LeStep(v, 4);
    LeStep(v / 256, 3);
    LeTwo(v / 256 / 256);
  }
}
